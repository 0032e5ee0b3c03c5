# Authentication and session core of the instagram-clone API, in Dafny

This project models the part of the NestJS API that handles accounts and
sessions, and proves properties of that model:

- **The request guard** (`AuthGuard`) decides whether a request may reach a
  route. It reads the route's `@Public()` / `@WithoutAuth()` flags and the
  `X-ACCESS-TOKEN` / `X-REFRESH-TOKEN` cookies. When the access token no
  longer verifies, it renews it silently from the refresh token.
- **The session service** (`AuthService`) covers login, renewal of the
  access token from an (access, refresh) pair, and logout. All three work
  over the `authSessions` collection.
- **The single-use token store** (`TokensService`) creates, regenerates in
  place, looks up, validates and deletes verification and password-reset
  tokens.
- **The account flows** (`UsersService`) are signup, e-mail verification,
  resend, forgot / check / reset password, and user lookup by trimmed,
  lower-cased e-mail or username.
- **The pure pieces** are:
  - the two status checks and the public projection of a user;
  - the username and password regular expressions, as predicates;
  - the signup field constraints;
  - the three document schemas;
  - `generateRandomToken`, which turns `length / 2` random bytes into
    lower-case hex.

State is modelled like this:

- Each collection is a sequence of rows (`Collection.Row`: a generated id
  and a document), kept in insertion order. `findOne` returns the first
  matching row.
- The services are classes. Their methods update the collections in place,
  and each class keeps an invariant `Valid()`.
- Time is a millisecond clock value `now`.
- The random source is an input: the bytes it drew, or its error.
- The JSON Web Token codec (RFC 7519) and the argon2 hash are symbolic. A
  token verifies to its `sub` until its `exp` second (section 4.1.4 of
  RFC 7519); a hash verifies exactly the password it was made from.
- E-mail delivery is recorded as a request appended to `UsersService.outbox`.
- Cookie instructions are returned as a list of `Auth.CookieOp`.

## Model

| member | source | states |
|---|---|---|
| Errors.Status | apps/api/src/app/users/users.const.ts:11-23 | every code lies between 400 and 500, and it is 400 exactly for the bad-request exceptions (credentials, activation state, taken e-mail or username, unknown e-mail, invalid token) |
| JsString.ToLowerCase | apps/api/src/app/users/schemas/user.schema.ts:20-34 | lower-casing keeps the length and maps each character on its own: an ASCII capital to its small letter, everything else unchanged |
| JsString.ToLowerCaseResult | apps/api/src/app/users/schemas/user.schema.ts:20-34 | the lower-casing setter yields a string with no upper-case letter, and leaves an already lower-case string as it is |
| JsString.Trim | apps/api/src/app/users/users.service.ts:148 | `trim` returns the infix of its input obtained by dropping leading and trailing whitespace only; the result neither starts nor ends with whitespace |
| JsString.LookupKeyIdempotent | apps/api/src/app/users/users.service.ts:145-159 | the lookup normalisation (trim, then lower-case) is idempotent |
| RandomToken.ByteCount | apps/api/src/app/shared/generate-random-token.ts:5 | the byte count `length / 2` gives between `length - 1` and `length` hex characters |
| RandomToken.HexEncode | apps/api/src/app/shared/generate-random-token.ts:11 | hex encoding yields two characters per byte, all from [0-9a-f] |
| RandomToken.HexDecodeEncode | apps/api/src/app/shared/generate-random-token.ts:11 | hex encoding is invertible: decoding the token gives back the drawn bytes |
| RandomToken.HexEncodeInjective | apps/api/src/app/shared/generate-random-token.ts:11 | different byte strings give different tokens |
| RandomToken.GenerateRandomToken | apps/api/src/app/shared/generate-random-token.ts:3-15 | fails exactly when the random source fails; otherwise returns `2 * (length / 2)` characters from [0-9a-f] (exactly `length` when `length` is even) that decode to the drawn bytes |
| RandomToken.DefaultTokenShape | apps/api/src/app/shared/generate-random-token.ts:3-5 | with the default length 128, 64 bytes are requested and the token has 128 characters |
| Shared.IsDateExpired | apps/api/src/app/tokens/tokens.service.ts:59 | a date the clock has not passed (including one equal to the clock) is not expired |
| Shared.ExpiryIsPermanent | apps/api/src/app/auth/auth.service.ts:138 | once a date has expired it stays expired at every later clock value |
| Shared.HashPasswordInjective | apps/api/src/app/shared/hash-password.ts:3-4 | two passwords with the same hash are the same password |
| Shared.VerifyPassword | apps/api/src/app/shared/verify-password.ts:3-6 | verification can only succeed when a hash is stored |
| Shared.VerifyHashedPassword | apps/api/src/app/shared/verify-password.ts:3-6 | the hash of `p` verifies `q` if and only if `p == q` |
| Jwt.Sign | apps/api/src/app/auth/auth.service.ts:182-191 | the signed token carries `sub` = the user id and `exp` = now in seconds + `expiresIn` |
| Jwt.Verify | apps/api/src/app/auth/auth.guard.ts:89-95 | a token verifies to its `sub` if and only if it is signed with the secret and the clock is before `exp`; it is reported expired if and only if it is signed with the secret and the clock has reached `exp` |
| Jwt.VerifyOtherSecret | apps/api/src/app/auth/auth.guard.ts:89-95 | a token signed under one secret is invalid under any other |
| Collection.FindFirst | apps/api/src/app/tokens/tokens.service.ts:45-50 | `findOne` returns the first matching row, or none exactly when no row matches |
| Collection.IndexOfId | apps/api/src/app/users/users.service.ts:141-143 | `findById` returns the first row with the id, or none exactly when no row has it |
| Collection.RemoveAt | apps/api/src/app/auth/auth.service.ts:48-55 | deleting one row keeps the rows before and after it, in order |
| Collection.DeleteById | apps/api/src/app/tokens/tokens.service.ts:93-95 | `findByIdAndDelete` removes one row when the id exists and nothing otherwise |
| Collection.DeleteByIdContents | apps/api/src/app/tokens/tokens.service.ts:93-95 | with distinct ids, deleting by id keeps exactly the rows with another id, and the ids stay valid |
| Collection.UpdateById | apps/api/src/app/users/users.service.ts:63-65 | `findByIdAndUpdate` replaces the document of the row with that id, in place; ids, order and every other row are unchanged |
| UserSchema.NewUser | apps/api/src/app/users/schemas/user.schema.ts:20-55 | a new user is pending, has roles `[user]`, keeps the given (optional) hash, and stores username and e-mail lower-cased |
| UserSchema.InsertKeepsUniqueIndexes | apps/api/src/app/users/schemas/user.schema.ts:20-34 | an insert that the unique indexes accept keeps usernames and e-mails unique |
| AuthSessionSchema.PairLookupTakesEarliest | apps/api/src/app/auth/schemas/auth-session.schema.ts:21-31 | nothing makes token pairs unique, so when two sessions share a pair the lookup only ever sees the earlier one |
| UsersConst.UsernameRegex | apps/api/src/app/users/users.const.ts:9 | an accepted username is non-empty, does not start with a capital letter and holds no line terminator (`.*$` without the `m` flag) |
| UsersConst.PasswordRegexAt | apps/api/src/app/users/users.const.ts:6-7 | a match can start only on a character that is not `.`, and from there to the end no line terminator occurs |
| UsersConst.PasswordRegex | apps/api/src/app/users/users.const.ts:6-7 | an accepted password is non-empty and does not end with a line terminator |
| UsersConst.PasswordRegexNeedsClasses | apps/api/src/app/users/users.const.ts:6-7 | every password the pattern accepts contains an upper-case letter, a lower-case letter, and a digit or a non-word character |
| UsersConst.PasswordRegexFromClasses | apps/api/src/app/users/users.const.ts:6-7 | conversely, a single-line password that does not start with `.` and has all three kinds of character is accepted |
| UsersConst.UsernameRegexSurvivesLowerCase | apps/api/src/app/users/users.const.ts:9 | lower-casing keeps a username the pattern accepts acceptable |
| UsersConst.ValidateUserStatusIsPending | apps/api/src/app/users/users.const.ts:11-17 | fails, with "already activated", if and only if the status is not pending |
| UsersConst.ValidateUserStatusIsActive | apps/api/src/app/users/users.const.ts:19-23 | fails, with "not yet activated", if and only if the status is not active |
| UsersConst.GetUserPublic | apps/api/src/app/users/users.const.ts:25-32 | the projection carries exactly the id, username, e-mail and roles |
| UsersConst.GetUserPublicHidesSecrets | apps/api/src/app/users/users.const.ts:25-32 | the projection does not depend on the password hash or on the status |
| CreateUserDto.Violations | apps/api/src/app/users/dto/create-user.dto.ts:12-30 | a field is reported if and only if it fails one of its constraints |
| CreateUserDto.Validate | apps/api/src/app/users/dto/create-user.dto.ts:12-30 | a body is accepted if and only if all three fields are valid; otherwise it is rejected as a whole, with every failing field |
| CreateUserDto.AcceptedInput | apps/api/src/app/users/dto/create-user.dto.ts:13-29 | an accepted body has: a username of 4..20 characters starting with [a-z0-9] or a separator; an e-mail of 1..255 characters; a password of 8..20 characters with upper, lower, and digit-or-symbol characters; and a username whose stored lower-cased form still passes |
| Tokens.Regenerate | apps/api/src/app/tokens/tokens.service.ts:80-91 | regeneration adds at most one row; the row returned is stored, belongs to the user and carries the new token string; valid ids stay valid, the counter advancing by the rows added |
| Tokens.RegenerateInPlace | apps/api/src/app/tokens/tokens.service.ts:80-91 | when (user, type) has a row, regeneration keeps the row count and the row's id, owner, type and expiry, changes only its token string, and touches no other row |
| Tokens.RegenerateCreatesPasswordReset | apps/api/src/app/tokens/tokens.service.ts:86-88 | when (user, type) has no row, one row is appended and it is a password-reset token whatever type was asked for, so a user asking for verification still has no verification row |
| Tokens.TokensService.CreateToken | apps/api/src/app/tokens/tokens.service.ts:15-23 | appends one row with the user, the type, a freshly generated token and the schema's default expiry; on a random-source error nothing is stored |
| Tokens.TokensService.UpdateToken | apps/api/src/app/tokens/tokens.service.ts:25-39 | the row with the id keeps its place and id and gets a fresh token string, all other fields as before; null when there is no such row |
| Tokens.TokensService.GetToken | apps/api/src/app/tokens/tokens.service.ts:41-51 | returns a stored row with this token string and type, and none if and only if no row has both |
| Tokens.TokensService.GetTokenAndValidate | apps/api/src/app/tokens/tokens.service.ts:53-66 | succeeds if and only if the lookup finds a row whose expiry has not passed, and then returns that row; otherwise fails with "unable to find a valid token" |
| Tokens.TokensService.GetTokenByUserId | apps/api/src/app/tokens/tokens.service.ts:68-78 | returns a stored row of this user and type, and none if and only if there is no such row |
| Tokens.TokensService.GetTokenByUserIdAndCreateOrUpdate | apps/api/src/app/tokens/tokens.service.ts:80-91 | the new rows are those of `Regenerate`: regeneration in place, or creation of a password-reset row |
| Tokens.TokensService.DeleteToken | apps/api/src/app/tokens/tokens.service.ts:93-95 | removes the row with the id and keeps the store's invariant |
| Tokens.NoTokenValidatesAfterDefault | apps/api/src/app/tokens/schemas/token.schema.ts:39-44 | since every token carries the one expiry computed when the schema was defined, once the clock passes it no token of either type validates |
| Tokens.LookupIsKeyedOnKind | apps/api/src/app/tokens/tokens.service.ts:41-51 | a token string stored only under one type is not found under the other |
| Tokens.SpentTokenIsGone | apps/api/src/app/tokens/tokens.service.ts:93-95 | with distinct token strings, after the found row is deleted the same string finds nothing, and the strings stay distinct |
| Users.UsersService.GetUserById | apps/api/src/app/users/users.service.ts:141-143 | returns the user with the id, or none exactly when no user has it |
| Users.UsersService.GetUserByEmail | apps/api/src/app/users/users.service.ts:145-151 | returns a user whose stored e-mail equals the trimmed, lower-cased input, and none if and only if there is no such user |
| Users.UsersService.GetUserByUsername | apps/api/src/app/users/users.service.ts:153-159 | returns a user whose stored username equals the trimmed, lower-cased input, and none if and only if there is no such user |
| Users.EmailLookupIgnoresCaseAndSpaces | apps/api/src/app/users/users.service.ts:145-151 | an e-mail and its normalised form find the same user |
| Users.UsersService.SignupConflict | apps/api/src/app/users/users.service.ts:26-35 | a taken e-mail is reported first; a taken username is reported only when the e-mail is free; there is no conflict if and only if both are free and the stored document passes the unique indexes |
| Users.UsersService.InsertUser | apps/api/src/app/users/users.service.ts:31-35 | appends the new user with a fresh id and keeps the unique indexes |
| Users.UsersService.IssueVerification | apps/api/src/app/users/users.service.ts:37-42 | creates one verification token for the user, advancing the token id counter by one, and requests one verification e-mail carrying it; on a random-source error neither happens |
| Users.UsersService.CreateUser | apps/api/src/app/users/users.service.ts:23-45 | a taken e-mail fails first and a taken username second, each with no change; otherwise the pending user with the hashed password is stored, then one verification token for it is created (the token id counter advancing by one) and one verification e-mail with that token is requested |
| Users.UsersService.VerifyUser | apps/api/src/app/users/users.service.ts:47-68 | a missing or expired token fails with no change; an owner who is not pending loses the token and the call fails; a pending owner becomes active and the token is deleted; the token id counter never moves |
| Users.UsersService.ResendUserVerification | apps/api/src/app/users/users.service.ts:70-84 | an unknown e-mail or a user who is not pending fails before any token changes; otherwise the tokens become those of `Regenerate` for a verification token, the token id counter advancing by the rows added, and one e-mail with the new token is requested |
| Users.UsersService.ForgotPassword | apps/api/src/app/users/users.service.ts:86-100 | the same gate, including that the user must be pending; then a password-reset token is regenerated and mailed |
| Users.UsersService.CheckResetPassword | apps/api/src/app/users/users.service.ts:102-107 | changes nothing, and passes if and only if a password-reset row with this token exists and the tokens' expiry has not passed |
| Users.UsersService.ResetPassword | apps/api/src/app/users/users.service.ts:109-127 | with a live reset token, the owner's hash becomes the hash of the new password and the token is deleted; otherwise nothing changes |
| Scenarios.VerifyTwice | apps/api/src/app/users/users.service.ts:47-68 | once a verification call has consumed the token, a second call with the same token fails as invalid or expired |
| Auth.ClassifyRefresh | apps/api/src/app/auth/auth.service.ts:126-143 | renewal selects the first session holding exactly the (access, refresh) pair, finds none if and only if no session holds it, and treats the session as expired if and only if its refresh expiry has passed |
| Auth.RenewalRetiresOldPair | apps/api/src/app/auth/auth.service.ts:145-156 | when refresh tokens are distinct, renewing a session whose access token no longer verifies writes a different token; the old pair then selects nothing and the new pair selects the same session |
| Auth.RemovalRetiresPair | apps/api/src/app/auth/auth.service.ts:44-59 | deleting the session a pair selects (logout, or an expired renewal) leaves the pair selecting nothing |
| Auth.AuthService.CreateAccessToken | apps/api/src/app/auth/auth.service.ts:182-191 | the new access token verifies to the user id at once, with `exp` = now + the access lifetime |
| Auth.AuthService.Logout | apps/api/src/app/auth/auth.service.ts:44-59 | deletes the first session holding exactly both cookie tokens (nothing when a cookie is absent or no session matches), and clears both cookies in every case |
| Auth.AuthService.CreateLoginTokens | apps/api/src/app/auth/auth.service.ts:159-180 | appends one session for the user with the new access and refresh tokens and refresh expiry now + `refreshTokenExpiresIn * 1000`, and returns the pair |
| Auth.AuthService.Login | apps/api/src/app/auth/auth.service.ts:88-120 | an unknown e-mail and a wrong password fail alike; an inactive user fails next; neither adds a session or sets a cookie; on success exactly one session is added, both cookies are set to its tokens and the public projection is returned |
| Auth.AuthService.TryToCreateNewAccessToken | apps/api/src/app/auth/auth.service.ts:122-157 | no matching pair gives null and no change; an expired session is deleted and gives null; a live session whose owner no longer exists rejects (`OwnerMissing`, status 500) with no change; any other live session gets a new access token in place (owner, refresh token, expiry and row count unchanged), and the owner and token are returned |
| Guard.MetadataOf | apps/api/src/app/auth/auth.controller.ts:19-85 | no route is public; logout and the current-user route need authentication, and every other route is without-auth |
| Guard.Decide | apps/api/src/app/auth/auth.guard.ts:34-73 | a public route is always allowed; a without-auth route refuses a present user with 403; any other route refuses a missing user with 401 and otherwise attaches the user |
| Guard.RouteTableDecisions | apps/api/src/app/auth/auth.guard.ts:51-64 | over the controller's routes: a signed-in user is refused everything but logout and the current user, and an anonymous one is refused exactly those two |
| Guard.IdentifiedOnlyOnProof | apps/api/src/app/auth/auth.guard.ts:80-127 | the guard settles on a user id only when the access token verifies to it, or when a live session holding both cookie tokens belongs to it |
| Guard.ClearedOnlyWhenAnonymous | apps/api/src/app/auth/auth.guard.ts:109-119 | both cookies are cleared only when no user was identified |
| Guard.RenewedCookieAuthenticates | apps/api/src/app/auth/auth.guard.ts:121-126 | a renewed access-token cookie verifies on its own to the user the guard settled on |
| Guard.ExtractionKeepsSessionTable | apps/api/src/app/auth/auth.guard.ts:109-126 | extraction never adds a session and keeps ids valid and refresh tokens distinct; after a renewal attempt that does not reject, the presented pair selects no session; a rejected renewal changes no session and sets no cookie |
| Guard.TryToExtractUser | apps/api/src/app/auth/auth.guard.ts:75-135 | with no access cookie, nothing is done; a verifying token gives its `sub` and touches nothing; otherwise, with no refresh cookie, nothing is done; a null renewal clears both cookies; a rejected one (the session's owner is gone) propagates its error and touches no cookie; a successful one sets only the access cookie and uses the session's owner; the result is that user, looked up |
| Guard.CanActivate | apps/api/src/app/auth/auth.guard.ts:34-73 | a public route is allowed without extraction and without any change; otherwise the decision is `Decide` on the extracted user, or a refusal with the error extraction propagated, with extraction's effect on sessions and cookies |

## Left out

- The JSON Web Token library and argon2 are foreign code. They are replaced by a symbolic codec and a symbolic hash. Signatures are not cryptographic, and a forged token is simply one whose signature does not match.
- `crypto.randomBytes` is an input (`RandomBytes`). Every call is assumed to be answered with exactly the requested number of bytes (`WellSized`).
- `isDateExpired` is not part of this model. The model takes it to be `at < now`: a date equal to the clock is still valid.
- Dates are integers on a millisecond clock. The JSON Web Token `exp` is in whole seconds (`now / 1000`).
- `getDefaultTokenExpiration` is not part of this model. Its value, computed once, is the token store's constant `defaultExpiresAt`.
- JsString.ToLowerCase: lower-cases only the ASCII letters. JavaScript's `toLowerCase` also maps non-ASCII letters.
- CreateUserDto.EmailValid: the `@IsEmail()` verdict is an input (`isEmail`). The e-mail syntax it checks is not modelled.
- The length checks count one per character. class-validator's `isLength` counts an astral-plane character (a surrogate pair) once as well, but does not count the variation selectors U+FE0E and U+FE0F at all; the model counts them like any other character.
- Mongoose details are left out: `populate`, ObjectId generation, a filter with an `undefined` value, and `$or` with a single branch. Ids are naturals handed out in order. A logout with an absent cookie deletes nothing.
- A token whose owner document has been deleted makes the source's `user.status` / `user.id` read fail. This is modelled as the error `OwnerMissing`, with no state change. The same holds for a live session whose owner is gone: `populate('user')` yields null, signing reads `user.id` of null, and the guard's `canActivate` rejects (status 500).
- Errors.Message: the messages are copied literally, and no property of the strings is proved. Reasoning about long string literals is too costly for the verifier here.
- A user document with no stored hash: argon2 would reject the call. The model treats it as a password mismatch (`InvalidCredentials`).
- The guard's `getUserById` is returned from inside `try` without `await`, so its catch block never runs. Since ids are naturals, the lookup cannot fail here, and an unknown id gives no user.
- Concurrency: every operation is atomic. Two requests racing on the same refresh are not modelled.
- E-mail rendering and SMTP delivery are left out. Only the request (recipient, template, token) is recorded.
- Configuration is a `Config` value whose two lifetimes are positive, as the environment validation requires.
- Module wiring and the Reflector are left out. The route flags are a `RouteMetadata` value, seeded from the controller's route table.
- The other `AuthService` methods (`signup`, `resendVerification`, `verify`, `forgotPassword`, `checkResetPassword`, `resetPassword`) only delegate to `UsersService` and are modelled there.
- Tokens.TokensService.GetTokenByUserIdAndCreateOrUpdate: the string returned is not required to be fresh. Randomness is an input, so two draws may coincide; the single-use lemmas take distinct token strings as a hypothesis (`TokenStringsDistinct`, `RefreshTokensDistinct`).

## Source discrepancies

Some calls across files do not match what is defined. The model follows
what each call is evidently for:

- The guard calls `removeLoginTokensFromCookie` and `storeLoginTokensInCookie` (apps/api/src/app/auth/auth.guard.ts:116, :122). `AuthService` does not define them. They are modelled as clearing both cookies and as setting the access-token cookie.
- The guard reads `newAccessToken.user.id` (apps/api/src/app/auth/auth.guard.ts:126). `tryToCreateNewAccessToken` returns `{userId, accessToken}` (apps/api/src/app/auth/auth.service.ts:153-156). The model uses `userId`.
- The user service calls `getTokenByTokenAndValidate` and `getTokenByUserIdAndCreateOrUpdateToken` (apps/api/src/app/users/users.service.ts:48, :76, :92, :103, :110). The token service defines `getTokenAndValidate` and `getTokenByUserIdAndCreateOrUpdate`. The model has one operation for each pair.

The guard clears both cookies whenever renewal returns null. That happens
when no session holds the pair, and also when the session's refresh token
has expired (apps/api/src/app/auth/auth.guard.ts:115-119,
apps/api/src/app/auth/auth.service.ts:138-142).

Three apparent defects are kept exactly as written, each with a lemma or
contract that shows it:

- A regeneration that finds no row for (user, type) always creates a `PasswordReset` token (apps/api/src/app/tokens/tokens.service.ts:87). So a resend for a pending user who has no verification token mails a token that `verifyUser` cannot accept. See `Tokens.RegenerateCreatesPasswordReset`.
- `forgotPassword` requires the user to be pending (apps/api/src/app/users/users.service.ts:89). So an active user, the one who can log in, cannot reset a password. See the contract of `Users.UsersService.ForgotPassword`.
- The token expiry default is evaluated once, when the schema is defined (apps/api/src/app/tokens/schemas/token.schema.ts:42). So every token shares one expiry, and after that instant no token validates. See `Tokens.NoTokenValidatesAfterDefault`.
