# Atlas auth service — token lifecycle, session resolution and input rules

This project models in Dafny the authentication core of the Atlas auth service.

- **Tokens** (`store.dfy`, `token_spec.dfy`, `jwt_auth.dfy`). Access and refresh JWTs are minted and validated against a Redis store. The store holds two key families: `refresh_token:<jti> → sub` for active refresh tokens and `blacklist:<jti> → "1"` for revoked token ids. The model covers single and bulk revocation, one-time redemption of refresh tokens, and the request middleware that picks a credential, validates it, silently rotates a refresh token, and resolves the caller among administrators or project users. `JwtAuth.TokenService` is a class that owns a `Store.KeyStore`; its methods mutate the store the way the Python functions do. `TokenSpec` and `RequestSpec` hold the functions those methods are proved against, with the lemmas about them.
- **Password policy** (`security.dfy`). The ordered password check.
- **Schemas** (`schemas.dfy`). The registration and login field bounds, the complexity validator, the password-or-OAuth validator of user creation, and the token response default.
- **OAuth** (`oauth.dfy`). The pure parts of the sign-in flow: login guards, the callback's state check and dispatch, the per-provider extraction of email and name, and the login a new account gets.
- **Configuration** (`config.dfy`). The connection-URL builders, the signing data, the provider table and the DEBUG switch.

Modelling conventions:

- **JWT codec.** Abstract: a pair of functions with `decode(encode(c)) == Some(c)`.
- **Expiry.** A token is expired when `exp <= now`.
- **`uuid4`.** A fresh-id oracle. Each minting method takes the new `jti` as an argument. The id must contain no `:` and must be unused by both key families and by every retired refresh token.
- **Redis.** Single-key commands are atomic map updates with an explicit integer clock. `AdvanceClock` purges expired keys. SCAN visits 100 hash slots per call and returns cursor 0 when the table is done.
- **Python semantics.** Truthiness, `or`, `str.replace`, `split(...)[-1]`, `split(...)[0]` and `int()` are written out. So are the exceptions they raise (`KeyError`, `ValueError`, `AttributeError`, `TypeError`).

Facts about the code and how the model treats them:

- Active refresh tokens are stored under `refresh_token:<jti>`, with the subject as the value.
- The refresh-token write is not awaited in the code (first row of Findings). `JwtAuth.TokenService.CreateRefreshTokenUnawaited` keeps that behaviour. The rest of the model, the middleware's rotation included, uses the corrected `JwtAuth.TokenService.CreateRefreshToken`, which performs the write.
- Store errors are not modelled in the middleware. A rotation mints with the service's positive refresh lifetime, so its SETEX cannot fail, and connection errors are left out (see Left out).

## Model

| member | source | states |
|---|---|---|
| Store.Unexpired | app/jwt_auth.py:105-107 | The entries live at time t are exactly those whose expiry lies after t, with unchanged values (Redis key expiry). |
| Store.KeyStore.constructor | app/jwt_auth.py:16 | A new store is empty, valid, and at the given time. |
| Store.KeyStore.Setex | app/jwt_auth.py:113 | SETEX succeeds iff the TTL is positive, and then maps the key to the value until now+ttl; otherwise nothing changes. |
| Store.KeyStore.Delete | app/jwt_auth.py:117 | DEL removes exactly that key; deleting an absent key is harmless. |
| Store.KeyStore.Exists | app/jwt_auth.py:81 | EXISTS is true iff the key is live. |
| Store.KeyStore.Get | app/jwt_auth.py:131 | GET returns the live value, or None when the key is absent. |
| Store.KeyStore.Scan | app/jwt_auth.py:129 | One SCAN call returns exactly the matching keys of the next 100 slots, and cursor 0 once the table is exhausted. |
| Store.KeyStore.Tick | app/jwt_auth.py:105-107 | As time passes, every entry whose expiry is reached disappears and the others stay. |
| Text.IntToString | app/config.py:79 | `str(int)` is non-empty, starts with '-' iff negative, and is otherwise made of digits. |
| Text.IntToStringRoundTrip | app/config.py:79 | `int(str(i)) == i`. |
| Text.NatToStringRoundTrip | app/config.py:79 | Parsing the decimal digits of n gives back n. |
| Text.ParseInt | app/jwt_auth.py:195 | `int(s)` succeeds iff s is one or more digits with an optional '+' or '-' in front, and then gives its decimal value with that sign; any other text, the empty subject included, is a ValueError. |
| Text.RemoveAllKeepsText | app/jwt_auth.py:156 | `replace(pat, "")` keeps, unchanged and in place, all text in front of the first occurrence of pat. |
| Text.RemoveAllFirstOccurrence | app/jwt_auth.py:156 | `replace(pat, "")` drops the first occurrence of pat and goes on with the rest of the string. |
| Text.RemoveAllNoOccurrence | app/jwt_auth.py:156 | A string in which pat never occurs is returned unchanged. |
| Text.RemoveAllRepeated | app/jwt_auth.py:156 | Any number of leading copies of pat are all removed. |
| Text.RemoveAllAbsent | app/jwt_auth.py:156 | Replacing a prefix in a string that lacks one of its characters leaves the string unchanged. |
| Text.LastSegment | app/jwt_auth.py:133 | `key.split(":")[-1]` contains no separator, is a suffix of the key, and follows the last separator. |
| Text.LastSegmentAfter | app/jwt_auth.py:133 | The last segment of `p + ":" + j` is j when j has no ':'. |
| Text.BeforeFirst | app/oauth.py:259 | `s.split('@')[0]` is the prefix of s before the first '@', and all of s when there is none. |
| Text.SplitFirst | app/config.py:78-79 | Splitting at the first separator fails iff there is none, and otherwise rebuilds the input. |
| Text.SplitFirstOf | app/config.py:78-79 | Splitting `a + sep + b` at sep gives (a, b) when a lacks sep. |
| Text.Lower | app/config.py:13 | `lower()` maps each ASCII capital to its small letter and leaves the rest. |
| Text.Strip | app/oauth.py:228 | `strip()` gives the slice of s that is left when the whitespace at the front and at the back is dropped: everything dropped is whitespace, and what remains neither starts nor ends with whitespace. |
| Text.StripUnchanged | app/oauth.py:228 | A string with no whitespace at either end is its own strip. |
| TokenSpec.BlacklistKeyNotRefreshKey | app/jwt_auth.py:113-117 | A blacklist key never falls in the active refresh-token family. |
| TokenSpec.RefreshKeyInjective | app/jwt_auth.py:69 | Distinct jtis give distinct `refresh_token:` keys, and conversely. |
| TokenSpec.BlacklistKeyInjective | app/jwt_auth.py:113 | Distinct jtis give distinct `blacklist:` keys, and conversely. |
| TokenSpec.JtiOfRefreshKey | app/jwt_auth.py:133 | The jti read back from `refresh_token:<jti>` is the jti, provided it holds no ':'. |
| TokenSpec.Lifetime | app/jwt_auth.py:40-43 | The given delta is used when present and non-zero; otherwise the configured lifetime is used. |
| TokenSpec.Stamp | app/jwt_auth.py:35-45 | A minted claim set keeps the caller's subject and carries the new jti, the expiry and the type. |
| TokenSpec.Decode | app/jwt_auth.py:77 | Decoding succeeds iff the codec accepts the text and the claims are not expired. |
| TokenSpec.Validate | app/jwt_auth.py:75-94 | `decode_token` accepts iff decoding succeeds and the jti is not blacklisted, and returns the decoded claims. |
| TokenSpec.SignedTokenAccepted | app/jwt_auth.py:75-88 | A token the service encoded, unexpired and unrevoked, validates to its own claims. |
| TokenSpec.ExpiredNeverReportedRevoked | app/jwt_auth.py:76-94 | An expired token fails with "Could not validate credentials", never with "Token has been revoked". |
| TokenSpec.NoJtiIgnoresBlacklist | app/jwt_auth.py:80-81 | A token without a jti validates the same way whatever the store holds. |
| TokenSpec.ValidateMonotone | app/jwt_auth.py:80-86 | Adding blacklist entries can only turn an acceptance into a rejection, never the reverse. |
| TokenSpec.RevokeTtl | app/jwt_auth.py:108-110 | The blacklist TTL is at least 1 s, is 3600 s without an expiry, and covers the token's remaining validity. |
| TokenSpec.RevokeIdempotent | app/jwt_auth.py:98-119 | Revoking the same token twice leaves the same store as revoking it once. |
| TokenSpec.RevokeAccessKeepsRefreshEntries | app/jwt_auth.py:115-117 | Revoking a non-refresh token leaves every active refresh-token entry as it was. |
| TokenSpec.RevokedStaysRejected | app/jwt_auth.py:105-113 | A revoked token with an expiry stays rejected as revoked at every later time it would still decode. |
| TokenSpec.RevocationWithoutExpiryLapses | app/jwt_auth.py:110 | A revoked token without an expiry is accepted again once the one-hour blacklist entry lapses. |
| TokenSpec.RedeemCheck | app/jwt_auth.py:236-262 | A refresh token is redeemable iff it validates, has type "refresh", a jti whose active entry exists, and a subject. |
| TokenSpec.AccessTokenNotRedeemable | app/jwt_auth.py:239-244 | An access token is never accepted as a refresh token. |
| TokenSpec.RedeemOnce | app/jwt_auth.py:246-274 | After a rotation, redeeming the same refresh token again fails as revoked (one-time use). |
| TokenSpec.RotateGrowsBlacklist | app/jwt_auth.py:264-269 | A rotation only adds blacklist entries. |
| TokenSpec.Victims | app/jwt_auth.py:130-132 | The keys bulk revocation acts on are exactly the active refresh keys whose value is the user. |
| TokenSpec.RevokedAll | app/jwt_auth.py:130-137 | After processing a set of keys, those keys are gone and their jtis are blacklisted until the bound; all else is unchanged. |
| TokenSpec.RevokedAllStep | app/jwt_auth.py:133-137 | Processing one more key is one blacklist write and one delete. |
| TokenSpec.RevokeAllRemovesExactlySubject | app/jwt_auth.py:125-142 | Bulk revocation removes exactly the user's active refresh entries and leaves the others unchanged. |
| TokenSpec.RevokeAllBlacklistsSubject | app/jwt_auth.py:133-135 | Every refresh token of the user is blacklisted for the full refresh lifetime. |
| TokenSpec.RevokeAllEndsSubjectSessions | app/jwt_auth.py:125-142 | After bulk revocation, redeeming any refresh token of the user fails with the "revoked" detail. |
| TokenSpec.RevokeAllSparesOthers | app/jwt_auth.py:130-137 | A redeemable refresh token of another subject stays redeemable. |
| RequestSpec.CookieShadowsHeader | app/jwt_auth.py:150-156 | When an access cookie is set, the Authorization header is ignored. |
| RequestSpec.AdminCookieFirst | app/jwt_auth.py:150 | A non-empty `admins_access_token` cookie wins over `users_access_token`. |
| RequestSpec.BearerHeaderRoundTrip | app/jwt_auth.py:153-156 | Without cookies, `Authorization: Bearer <t>` yields t. |
| RequestSpec.RepeatedBearerPrefixStripped | app/jwt_auth.py:153-156 | For any number of "Bearer " copies in front of a token without spaces, the header yields exactly the token, because `replace` strips every occurrence. |
| RequestSpec.AdminRouteTestsDiffer | app/jwt_auth.py:277 | The refresh-path admin test is strictly narrower than the access-path test at lines 191-192. The two differ exactly on `/projects/owner` routes: every such path is an admin route for an access token and a project-user route after a refresh. |
| RequestSpec.Account | app/jwt_auth.py:194-217 | The identity lookup finds the id in the admins table on admin routes and in the users table otherwise. |
| RequestSpec.AccessAttempt | app/jwt_auth.py:168-219 | Access is granted iff the token is valid, unrevoked, of type access, with a numeric subject whose id is in the table the route selects (admins on admin-service and owner routes, users elsewhere); the granted user is that row. A valid access token whose subject is present but not numeric crashes with ValueError, and only such a token crashes. |
| RequestSpec.AccessAttemptMonotone | app/jwt_auth.py:168-219 | A rejected access token stays rejected when the blacklist grows. |
| RequestSpec.Unauthenticated | app/jwt_auth.py:158-166 | Protected paths get 401 and all others proceed anonymously. |
| RequestSpec.PlanRequest | app/jwt_auth.py:146-262 | With no access credential: 401 "Not authenticated" on `/api/protected` paths, no user elsewhere. A granted access token ends the request; a non-numeric subject raises ValueError. After a rejected access token: an empty refresh cookie ends as with no credential, a refresh token failing the checks ends as "Invalid refresh token. Please login again.", and a redeemable one is rotated with its claims. Rotation happens only then. |
| RequestSpec.AfterRotation | app/jwt_auth.py:276-304 | After a rotation, the subject's id is looked up among admins iff the path has the admin-service prefix, and the user returned is that row. A non-numeric subject raises ValueError; a missing account ends as "Invalid refresh token. Please login again.". |
| RequestSpec.GrantedAccessSettles | app/jwt_auth.py:168-219 | A granted access token settles the request with that identity and type, without touching the refresh token. |
| RequestSpec.ProtectedNeverAnonymous | app/jwt_auth.py:158-166 | No request to a protected path ends anonymous. |
| RequestSpec.UnprotectedRaisesNoHttpError | app/jwt_auth.py:306-314 | A public path never ends in an HTTP error. |
| RequestSpec.ReplayAfterRotationRejected | app/jwt_auth.py:264-265 | Replaying a request after its rotation is answered as "Invalid refresh token. Please login again." |
| RequestSpec.CurrentUser | app/jwt_auth.py:372-412 | `get_current_user` answers a validation failure with 401 and its message. For a valid token: no `sub` gives 401 "Could not validate credentials"; a non-numeric `sub` gives ValueError; an id in the admins table gives that admin with type admin; otherwise an id in the users table gives that user with type user; otherwise 401 "User not found". |
| RequestSpec.RefreshTokenAuthenticates | app/jwt_auth.py:376-399 | `get_current_user` accepts a refresh token as readily as an access token. |
| RequestSpec.EmptySubjectRaises | app/jwt_auth.py:379-388 | An empty subject passes the `is None` test and then raises ValueError in `int()`. |
| RequestSpec.RequireType | app/jwt_auth.py:416-432 | The role guards pass the user through iff the role matches, give 403 otherwise, and propagate earlier failures. |
| RequestSpec.RolesExclusive | app/jwt_auth.py:416-432 | No token satisfies both role guards; a project user is never also an administrator. |
| JwtAuth.TokenService.constructor | app/jwt_auth.py:22-25 | The service starts valid with the configured lifetimes and no retired tokens. |
| JwtAuth.TokenService.CreateAccessToken | app/jwt_auth.py:34-47 | The token decodes to the caller's claims plus a fresh jti, type "access" and exp = now + lifetime. It validates while unexpired, and the store is untouched. |
| JwtAuth.TokenService.CreateRefreshToken | app/jwt_auth.py:51-71 | Registers `refresh_token:<jti> → sub` for the lifetime and returns a token that is then redeemable. A missing sub raises KeyError; a non-positive TTL is a store error. |
| JwtAuth.TokenService.CreateRefreshTokenUnawaited | app/jwt_auth.py:69 | As written, the write is never performed, so the returned token can never be redeemed. |
| JwtAuth.TokenService.DecodeToken | app/jwt_auth.py:75-94 | Returns the validated claims, or 401 with the validation message. |
| JwtAuth.TokenService.RevokeToken | app/jwt_auth.py:98-121 | Returns true iff the token decodes and has a jti; then the store becomes the revocation effect, otherwise it is unchanged. |
| JwtAuth.TokenService.RevokeAllUserTokens | app/jwt_auth.py:125-142 | The SCAN loop terminates, returns true, and leaves exactly the bulk-revocation effect for the user. |
| JwtAuth.TokenService.ScanAndRevoke | app/jwt_auth.py:127-140 | The cursor loop ends once SCAN returns 0, with every victim of the original store revoked and nothing else changed. |
| JwtAuth.TokenService.RevokeScanBatch | app/jwt_auth.py:129-140 | One SCAN call advances the cursor or ends the scan, and every victim in the slots scanned so far is revoked. |
| JwtAuth.TokenService.RevokeBatch | app/jwt_auth.py:130-137 | One SCAN batch processes exactly the user's keys in it. |
| JwtAuth.TokenService.RevokeIfOwned | app/jwt_auth.py:131-137 | A key is blacklisted and deleted iff its value is the user. |
| JwtAuth.TokenService.BlacklistAndDelete | app/jwt_auth.py:133-137 | Blacklisting the key's jti for the refresh lifetime and deleting the key adds that key to the processed set. |
| JwtAuth.TokenService.Redeem | app/jwt_auth.py:236-262 | The redemption checks agree with RedeemCheck. |
| JwtAuth.TokenService.Rotate | app/jwt_auth.py:264-274 | Retires the redeemed jti and mints a new pair for the same subject, whose refresh token is redeemable. |
| JwtAuth.TokenService.RefreshTokens | app/jwt_auth.py:318-368 | `refresh_tokens` fails with 401 and no change when the token is not redeemable. Otherwise it rotates and returns the new pair with token_type "bearer". |
| JwtAuth.TokenService.TryAccess | app/jwt_auth.py:168-219 | The access branch agrees with AccessAttempt. |
| JwtAuth.TokenService.AuthMiddleware | app/jwt_auth.py:146-314 | Carries out PlanRequest. A finished plan changes nothing; a rotation stores the new pair in request.state. `user` and `user_type` are set iff the caller is authenticated. |
| JwtAuth.TokenService.RotateSession | app/jwt_auth.py:264-306 | For a refresh token that passed its checks: rotates it, stores the new pair in request.state, and ends as AfterRotation says, with `user` and `user_type` set iff that outcome is authenticated. |
| JwtAuth.TokenService.GetCurrentUser | app/jwt_auth.py:372-412 | Agrees with CurrentUser. |
| JwtAuth.TokenService.GetCurrentAdmin | app/jwt_auth.py:416-422 | Only administrators pass; anyone else gets 403. |
| JwtAuth.TokenService.GetCurrentProjectUser | app/jwt_auth.py:426-432 | Only project users pass; anyone else gets 403. |
| JwtAuth.TokenService.AdvanceClock | app/jwt_auth.py:105-107 | Time passes and expired keys vanish, keeping the service valid. |
| Security.Any | app/security.py:84 | `any(f(c) for c in s)` holds iff some character satisfies f. |
| Security.PasswordMeetsRequirements | app/security.py:70-100 | Returns (True, None) iff all five requirements hold; too short gives the length message whatever the content; with no special character it is refused. |
| Security.FirstUnmet | app/security.py:79-100 | Finds the first requirement in order that fails, with all earlier ones met, or none when all hold. |
| Security.MeetsRequirementsIsFirstUnmet | app/security.py:79-100 | The check equals the ordered policy: accept when nothing is unmet, otherwise give the message of the first unmet requirement. |
| Security.MessageNamesFirstFailure | app/security.py:79-98 | A reported message names a requirement the password misses, and every requirement checked before it is met. |
| Security.LengthAndDigitMessages | app/security.py:79-85 | The length message appears iff the password is under 8 characters; the digit message iff it is long enough but has no digit. |
| Schemas.PasswordComplexity | app/schemas.py:111-123 | Accepts iff digit, upper, lower and special characters are all present, returns the value unchanged, and otherwise raises one of the four messages. |
| Schemas.PasswordComplexityIsFirstUnmet | app/schemas.py:111-123 | The validator returns the value when it has a digit, an upper-case, a lower-case and a special character, and otherwise the message of the first of these classes, in that order, that it lacks. |
| Schemas.ComplexityAgreesWithPolicy | app/schemas.py:112-122 | On passwords of 8 or more characters, the schema validator and the policy check agree, message for message. |
| Schemas.PasswordOrOAuth | app/schemas.py:242-258 | Raises the missing-credentials message iff the password is falsy and no provider was seen. Otherwise a truthy password passes the complexity rules unchanged. |
| Schemas.UserCreatePassword | app/schemas.py:234-246 | An omitted password is not validated. A given one goes through the password-or-OAuth validator with no provider, since the validator sees only the fields declared before it. |
| Schemas.OAuthOnlyUserRejected | app/schemas.py:237-246 | As declared, a user with a null or empty password is refused whatever `oauth_provider` says. |
| Schemas.UserCreatePasswordIntended | app/schemas.py:245 | The same validator, seeing the provider: a given password is checked by the password-or-OAuth validator with the provider as sent. |
| Schemas.IntendedAcceptsOAuthOnlyUser | app/schemas.py:245 | Under the intended rule, a password-less user passes iff a provider is named, and given passwords are checked as before. |
| Schemas.LengthErrors | app/schemas.py:98-109 | A `Field(min_length, max_length)` constraint reports no error iff the length is within the bounds, and at most one otherwise. |
| Schemas.RegisterPasswordErrors | app/schemas.py:98-123 | The password field reports at most one error. |
| Schemas.RegisterDataErrors | app/schemas.py:96-123 | Errors concern only the password and login fields. |
| Schemas.LoginDataErrors | app/schemas.py:126-133 | A login password is accepted iff it is 5 to 50 characters. |
| Schemas.RegisterDataAccepts | app/schemas.py:96-123 | A registration is accepted iff the password has at most 50 characters and meets the policy, and the login has 3 to 50. |
| Schemas.RegisteredPasswordLogsIn | app/schemas.py:96-133 | A password accepted at registration passes the login bounds and the security check. |
| Schemas.RegisterPasswordErrorOrder | app/schemas.py:98-115 | The bounds are reported before any content rule, and the digit rule comes first among those. |
| Schemas.MakeTokenResponse | app/schemas.py:136-139 | `token_type` defaults to "bearer", and the tokens are kept. |
| Config.ParseBool | app/config.py:13 | A set DEBUG is read as true iff it is "1", "on", "t", "true", "y" or "yes" in any case, as false for "0", "off", "f", "false", "n" or "no", and is a validation error otherwise. |
| Config.LoadDebug | app/config.py:9-73 | The environment value wins over the `.env` value, and each goes through the bool parser. |
| Config.DebugUnsetIsOff | app/config.py:13 | With DEBUG set nowhere, debugging is off, and debugging is never on unless DEBUG is set somewhere. |
| Config.DebugDefaultVersusLoader | app/config.py:13 | Where the line-13 default expression says true, the loaded value is true too. The two differ exactly on "on", "y" and "yes", which the loader reads as true and the default as false. Any value the loader rejects, the default reads as false. |
| Config.DebugIgnoresCase | app/config.py:13 | Both the loader and the default ignore letter case. |
| Config.DebugExamples | app/config.py:13 | "yes" loads as true where the default says false; "TRUE" is true for both; "debug" fails to load; a `.env` value applies when the environment has none. |
| Config.IntToStringHasNo | app/config.py:79 | A decimal port holds no separator character. |
| Config.PassDbUrlRoundTrip | app/config.py:76-79 | The database URL reads back into user, password, host, port and name when the parts hold no separators. |
| Config.RedisUrlRoundTrip | app/config.py:87-89 | The Redis URL reads back into password, host, port and db. |
| Config.RedisLocationRoundTrip | app/config.py:89 | The `host:port/db` part reads back into host, port and db when the host has no ':'. |
| Config.RedisUrlAuthPart | app/config.py:89 | The URL contains '@' iff a password is set, and then starts with `redis://:<password>@`. |
| Config.GetAuthData | app/config.py:82-84 | Exactly the keys secret_key and algorithm, holding the configured values. |
| Config.OAuthConfigShape | app/config.py:92-132 | Exactly four providers, each redirecting to its own callback under BASE_URL with its own client id and client secret; only vk has the API version "5.131". |
| OAuth.Or | app/oauth.py:215 | `a or b` is a when a is truthy, and b otherwise. |
| OAuth.VkName | app/oauth.py:226-230 | The VK name is "" when `response` is missing, falsy or empty. |
| OAuth.ExtractUserInfo | app/oauth.py:212-239 | A successful extraction always has a truthy email; an unknown provider always gets 400 "Email not provided by OAuth provider". |
| OAuth.KeyedProvidersReadUserInfo | app/oauth.py:213-222 | Google, GitHub and Yandex read the email key and the preferred name, else the fallback name, else "". A falsy email gives 400. |
| OAuth.VkEmailFromTokenResponse | app/oauth.py:223-225 | VK takes the email from the token response only; without one it answers 400. |
| OAuth.VkNameJoinsParts | app/oauth.py:226-228 | The VK name is "first last" of the first user. |
| OAuth.TokenResponseOnlyForVk | app/oauth.py:212-222 | The other providers ignore the token response. |
| OAuth.DeriveLogin | app/oauth.py:259 | The login is the name when truthy; otherwise the part of the email before '@', which contains no '@'. A non-string email raises. |
| OAuth.LoginIsEmailLocalPart | app/oauth.py:259 | For `local@domain` with no name, the login is local. |
| OAuth.LoginOfEmailWithoutAt | app/oauth.py:329 | An email without '@' becomes the login whole. |
| OAuth.AdminLoginGuard | app/oauth.py:29-30 | Admin login proceeds iff the provider is configured, and 404 otherwise. |
| OAuth.UserLoginGuard | app/oauth.py:61-82 | User login proceeds only for a configured provider and an existing project with OAuth on. |
| OAuth.ProjectProviderRule | app/oauth.py:79-82 | A provider the project does not list is allowed. A listed one passes iff its `enabled` is truthy; missing means off. |
| OAuth.ProjectSwitchDominates | app/oauth.py:75-76 | With the project's OAuth off, the answer is 403 whatever the providers say. |
| OAuth.CallbackPlan | app/oauth.py:137-199 | A state that differs from the session's gives 400 "Invalid state parameter". |
| OAuth.SessionAfterCallback | app/oauth.py:202-206 | The callback clears oauth_state, user_type and project_id and keeps everything else. |
| OAuth.CallbackFollowsLogin | app/oauth.py:137-199 | After an admin login, the callback accepts exactly the issued state and goes to the admin flow. After a user login, it goes to that project, except that project id 0 reads as missing. |
| OAuth.StateIsSingleUse | app/oauth.py:202-206 | Once the callback has cleared the session, the same state is refused. |
| OAuth.CallbackNeedsLogin | app/oauth.py:137-138 | A callback without a prior login in the session is refused. |
| OAuth.UnknownProviderRefused | app/oauth.py:18-30 | A provider outside the configured four is refused with 404. |

## Left out

- The JWT signing internals (python-jose, HMAC) are an abstract codec with the round-trip law. Malformed or tampered text is whatever the codec refuses.
- Expiry boundary: a token is expired when `exp <= now`; python-jose rejects only when `exp < now`. The one-second boundary is not modelled.
- Time is integer seconds. The float timestamps, `int(exp - now)` truncation and timedelta arithmetic are not modelled.
- `uuid4` is a fresh-id oracle (a method argument with a freshness precondition), not randomness.
- JwtAuth.TokenService.constructor: requires a positive refresh lifetime in days. A deployment with zero or negative REFRESH_TOKEN_EXPIRE_DAYS (a Redis error on every default refresh token) is out of the model.
- Redis as a networked, asynchronous, failing service is not modelled. Connection errors and timeouts are out of the model; only a non-positive SETEX TTL is a store error.
- SCAN may return a key twice or miss keys added during the walk. The model returns each slot's keys once, in one pass over a fixed table, and nothing runs concurrently.
- The race of two concurrent redemptions of one refresh token is not modelled; only the sequential one-time-use property is proved.
- Argon2 hashing and the pepper are not part of this model.
- FastAPI/Starlette wiring, CORS, rate limits and the response cookies are not part of this model.
- SQLAlchemy CRUD is not part of this model. The admins and users tables are two maps from id to identity.
- app/auth.py is not part of this model: it imports names that do not exist.
- The OAuth HTTP calls (token exchange, userinfo), the redirect URLs with their query strings, and `secrets.token_urlsafe` are not part of this model. The provider answers are inputs.
- The account creation and update in `process_admin_oauth`/`process_user_oauth` is not part of this model. That covers the `_<hex>` suffix on a taken login and `last_login`. Only the login derivation is modelled.
- Awaiting the synchronous token creators at app/user_auth.py:116-117 and app/oauth.py:285-286, 356-357 is a runtime error in callers outside the modelled core.
- Security.PasswordMeetsRequirements: `isdigit`, `isupper` and `islower` are ASCII ranges. Python's Unicode classes (Cyrillic letters, other digits) are not modelled.
- Schemas.PasswordComplexity: same ASCII restriction.
- Text.Lower and Text.Strip: `lower()` and `strip()` are restricted to ASCII letters and ASCII whitespace (space, tab, line feed, carriage return, vertical tab, form feed and the separators U+001C to U+001F); non-ASCII whitespace such as U+0085 or U+00A0 is kept.
- Text.ParseInt: `int()` also accepts surrounding whitespace, underscores between digits and non-ASCII Unicode decimal digits; these forms are not modelled and are read as a ValueError.
- Config.LoadDebug: the `.env` file syntax (quotes, comments, `export`), the secrets directory and any surrounding whitespace in the value are not modelled; the value is the string as pydantic receives it.
- Email validation (`EmailStr`) is not part of this model; RegisterData and LoginData are checked on their password and login fields only.
- HTTP header names are matched case-sensitively in the model (Starlette's headers are case-insensitive).
- OAuth.ExtractUserInfo: a list or object inside a VK name field is rendered by a placeholder, not by Python's `repr`.
- OAuth.ExtractUserInfo: a token response that is not a JSON object is not modelled.

## Findings

| source | as written | input that shows it | evidently intended | confidence | as-written member | corrected member |
|---|---|---|---|---|---|---|
| app/jwt_auth.py:69 | `redis_client.setex(...)` on the asyncio client is never awaited, so the active entry is never written | any `create_refresh_token({"sub": "7"})`, then redeeming the token | the write is performed, as the comments at lines 66-67 say, so the token can be redeemed once | high, not executed | JwtAuth.TokenService.CreateRefreshTokenUnawaited | JwtAuth.TokenService.CreateRefreshToken |
| app/schemas.py:245 | `info.data.get('oauth_provider')` is read while validating `password`, which is declared before `oauth_provider`, so the provider is never seen | `UserCreate(login="a", email="a@b.c", password=None, project_id=1, oauth_provider="google")` | a password-less user is accepted when an OAuth provider is given | medium, not executed | Schemas.OAuthOnlyUserRejected | Schemas.IntendedAcceptsOAuthOnlyUser |
