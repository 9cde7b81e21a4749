# Client-side session logic of the blogger platform front end

This project models the session logic of a browser front end for a blogging
platform. The logic has three parts, and each one is a module:

- **Jwt** (`jwt.dfy`) covers `decodeJWT`. It takes segment 1 of a JWS compact
  token (section 7.1 of RFC 7515) and rewrites the base64url alphabet
  (section 5 of RFC 4648) into the base64 alphabet (section 4). It
  base64-decodes the result and writes every byte as `%hh`. It then
  percent-decodes that text as UTF-8 (RFC 3629) and parses it as JSON. Any
  failure gives `null`. The signature is never checked.
- **Client** (`client.dfy`) covers the `accessToken` entry of the browser
  storage, `setAuthToken`, and the request interceptor that adds
  `Authorization: Bearer <token>` (section 2.1 of RFC 6750). It also covers
  the two interceptors' error handlers, which pass errors through.
- **Auth** (`auth.dfy`) covers `AuthProvider`. Its state is `user` and
  `isLoading`, and it works over the storage. Its transitions are
  `checkAuth`, `login` and `logout`. Its queries are `isAuthenticated`,
  `hasRole`, `isAdmin`, `canCreateBlog` and `canCreatePost`.

`Types` (`types.dfy`) holds `User` and `UserRole`. `Wrappers` holds `Option`.

Pure code is written as functions and lemmas. Code that changes state is
written as classes:

- `Client.Storage` models `localStorage`. It is a map from string keys to
  string values.
- `Client.RequestConfig` models the request object that the interceptor
  changes in place.
- `Auth.AuthProvider` holds the provider's fields.

Each method is proved against a function of the old state
(`CheckAuthStep`, `LoginStep`, `LogoutStep`, `StoreToken`, `WithBearer`).
The lemmas then state the source's promises about those functions.

The three browser primitives `atob`, `decodeURIComponent` and `JSON.parse`
are not modelled. They are the fields of `Jwt.Primitives`: total functions
that return `None` where the browser would throw. Some lemmas take as a
hypothesis what the primitives return on one particular input; examples are
`DecodedFromPayloadBytes`, `AdminTokenScenario` and `CheckAuthAdoptsUser`.
Only `EmptyPayloadYieldsNull` assumes a fixed browser behaviour: what the
browser does with the empty string (`EmptyInputBehaviour`).

Three behaviours of the code are easy to misread, and the model keeps each
of them as written:

- A user can stay present after their token is gone. When revalidation
  fails, `checkAuth` removes the token but keeps a `user` that was already
  set (src/contexts/AuthContext.tsx:44-48). So "a user is present iff the
  stored token decodes" is not an invariant of the provider.
  `StaleUserAfterFailedCheck` shows the resulting state, and
  `LoginInvalidToken` shows how `login` reaches it.
- Only `userId` and `userLogin` are required claims. A missing or
  different `userRole` gives `USER`.
- `isAdmin` compares the login with `"admin"` and ignores the role
  (`AdminIgnoresRole`, `AdminAndRoleDisagree`).

## Model

| member | source | states |
|---|---|---|
| Jwt.DecodeJwt | src/utils/jwt.ts:7-19 | The decoder is total. A result exists only if the token has a `.` and `atob` accepted the translated segment 1. Its other properties are stated by `OnlyPayloadMatters`, `NoSeparatorYieldsNull`, `StageFailuresYieldNull`, `EmptyPayloadYieldsNull` and `DecodedFromPayloadBytes`. |
| Jwt.PayloadSegment | src/utils/jwt.ts:9 | Segment 1 exists iff the token contains a `.`, and it contains no `.` itself. `PayloadSegmentOf` says where in the token it lies. |
| Jwt.ToStandardAlphabet | src/utils/jwt.ts:10 | The two global replacements change the alphabet. Their properties are stated by `TranslationPointwise`, `TranslationRemovesUrlCharacters`, `TranslationIdempotent` and `TranslationBetweenAlphabets`. |
| Jwt.EscapeByte | src/utils/jwt.ts:11-13 | The escape written for one byte. `EscapeByteShape` states its shape and value. |
| Jwt.Split | src/utils/jwt.ts:9 | `split('.')` returns at least one part. No part contains the separator, and joining the parts with it gives back the input. |
| Jwt.SplitAfterPrefix | src/utils/jwt.ts:9 | A separator-free head followed by the separator is split off as the first part, and the rest is split on its own. |
| Jwt.PayloadSegmentOf | src/utils/jwt.ts:9 | Segment 1 is exactly the text between the first `.` and the next `.` (or the end). |
| Jwt.OnlyPayloadMatters | src/utils/jwt.ts:9 | Two tokens with the same segment 1 decode alike. Segment 0 and the segments after index 1 do not influence the result. |
| Jwt.NoSeparatorYieldsNull | src/utils/jwt.ts:9-10 | A token with no `.` has no segment 1, so the decoder returns null. |
| Jwt.ReplaceAll | src/utils/jwt.ts:10 | A global single-character replace keeps the length, changes every occurrence and leaves every other character alone. |
| Jwt.TranslationPointwise | src/utils/jwt.ts:10 | The alphabet translation maps each `-` to `+` and each `_` to `/`, keeps every other character and keeps the length. |
| Jwt.TranslationRemovesUrlCharacters | src/utils/jwt.ts:10 | The translated string contains no `-` and no `_`. |
| Jwt.TranslationIdempotent | src/utils/jwt.ts:10 | Translating twice gives the same string as translating once. |
| Jwt.TranslationBetweenAlphabets | src/utils/jwt.ts:10 | Base64url text becomes base64 text, and the reverse translation gives back the original. |
| Jwt.JsHex | src/utils/jwt.ts:12 | `toString(16)` gives at least one digit, and every digit is a lower-case hex digit. |
| Jwt.JsHexValue | src/utils/jwt.ts:12 | The digits of `toString(16)` denote the number and have no leading zero. |
| Jwt.EscapeByteShape | src/utils/jwt.ts:11-13 | Each byte becomes `%` plus exactly two lower-case hex digits, and those digits denote the byte. |
| Jwt.PercentEncode | src/utils/jwt.ts:11-13 | The escaped string is three characters per byte. |
| Jwt.PercentRoundTrip | src/utils/jwt.ts:11-13 | Reading the `%hh` escapes back gives exactly the bytes `atob` returned, in order. |
| Jwt.StageFailuresYieldNull | src/utils/jwt.ts:8-18 | A failure of `atob`, of `decodeURIComponent` or of `JSON.parse` makes the decoder return null. It never throws. |
| Jwt.EmptyPayloadYieldsNull | src/utils/jwt.ts:8-18 | An empty segment 1 returns null, because `JSON.parse("")` throws. |
| Jwt.DecodedFromPayloadBytes | src/utils/jwt.ts:9-14 | The decoder's result is `JSON.parse` applied to the text decoded from the payload bytes, and the escapes carry those bytes. |
| Types.RoleName | src/types/index.ts:87-92 | USER is the literal `"USER"` and ADMIN is the literal `"ADMIN"`, each in both directions. |
| Types.RoleNameInjective | src/types/index.ts:87-92 | Different roles have different literals. |
| Client.Truthy | src/api/client.ts:21 | The truthiness test of `if (token)` in both places it is used: present and non-empty. |
| Client.StoreToken | src/api/client.ts:54-61 | The storage after `setAuthToken`. Its properties are stated by `StoreThenRead`, `ClearThenRead`, `LastWriteWins`, `OtherKeysUntouched` and `RewriteStoredToken`. |
| Client.WithBearer | src/api/client.ts:20-26 | The headers after the request interceptor. Its properties are stated by `BearerAttached` and `NoTokenNoHeader`. |
| Client.StoreThenRead | src/api/client.ts:54-57 | After `setAuthToken(t)` with a non-empty `t`, reading the token returns `t`. |
| Client.ClearThenRead | src/api/client.ts:54-61 | After `setAuthToken()` or `setAuthToken("")`, reading the token returns absent. |
| Client.LastWriteWins | src/api/client.ts:54-61 | Of two `setAuthToken` calls, the second alone decides the storage. |
| Client.OtherKeysUntouched | src/api/client.ts:54-61 | `setAuthToken` changes no storage key other than `accessToken`. |
| Client.RewriteStoredToken | src/api/client.ts:54-61 | Writing back the token that is already stored leaves the storage as it was. |
| Client.BearerRoundTrip | src/api/client.ts:22 | The token can be read back out of `Bearer <token>`. |
| Client.BearerAttached | src/api/client.ts:20-22 | With a non-empty token stored, `Authorization` becomes exactly `"Bearer " + token`, and no other header changes. |
| Client.NoTokenNoHeader | src/api/client.ts:20-26 | With no token, or an empty one, the headers stay as they were. |
| Client.InterceptRequest | src/api/client.ts:19-27 | The interceptor changes the config in place, returns the same object, and leaves the method and URL alone. |
| Client.InterceptRequestError | src/api/client.ts:28-30 | A request error is re-rejected unchanged. |
| Client.InterceptResponse | src/api/client.ts:37-48 | A response passes through and every error, a 401 included, is rejected unchanged. The storage cannot change, so the token survives a 401. |
| Client.SetAuthToken | src/api/client.ts:54-61 | The storage afterwards is `StoreToken` of the storage before. |
| Auth.RoleFromClaim | src/contexts/AuthContext.tsx:40 | The role is ADMIN exactly when the claim is the ADMIN role's literal. This is stated inside `UserFromClaimsFields`. |
| Auth.UserFromClaims | src/contexts/AuthContext.tsx:35-48 | The user built from the decoded claims. Its properties are stated by `UserFromClaimsFields`, `NonObjectYieldsNoUser`, `ClaimsRoundTrip` and `OtherClaimsIgnored`. |
| Auth.UserFromClaimsFields | src/contexts/AuthContext.tsx:35-43 | A user is built iff `userId` and `userLogin` are string claims. Then id = userId, login = userLogin, email = userEmail if it is a string and `''` otherwise, and role = ADMIN iff userRole is the string `"ADMIN"`. |
| Auth.NonObjectYieldsNoUser | src/contexts/AuthContext.tsx:35 | Null, and any decoded value that is not an object, yields no user. |
| Auth.ClaimsRoundTrip | src/contexts/AuthContext.tsx:35-43 | Reading the claims that describe a user gives back that user. |
| Auth.OtherClaimsIgnored | src/contexts/AuthContext.tsx:35-43 | Claims agreeing on the four keys that are read give the same user. |
| Auth.CheckAuthStep | src/contexts/AuthContext.tsx:23-57 | The `checkAuth` transition. Its properties are stated by the `CheckAuth*` lemmas and `StaleUserAfterFailedCheck`. |
| Auth.LoginStep | src/contexts/AuthContext.tsx:63-67 | The `login` transition. Its properties are stated by the `Login*` lemmas. |
| Auth.LogoutStep | src/contexts/AuthContext.tsx:73-77 | The `logout` transition. Its properties are stated by `LogoutClears`. |
| Auth.CheckAuthFinishesLoading | src/contexts/AuthContext.tsx:54-56 | After any `checkAuth`, `isLoading` is false. |
| Auth.CheckAuthAdoptsUser | src/contexts/AuthContext.tsx:28-43 | If the stored token's claims give user u, the state becomes u, not loading, and the storage is unchanged. |
| Auth.CheckAuthDropsBadToken | src/contexts/AuthContext.tsx:44-48 | If a truthy stored token gives no user, the token is removed, the previous user is kept and nothing else changes. |
| Auth.CheckAuthWithoutToken | src/contexts/AuthContext.tsx:25-56 | Without a truthy token, only `isLoading` changes. |
| Auth.CheckAuthUserSource | src/contexts/AuthContext.tsx:28-48 | The user after `checkAuth` is either the previous one or the one the stored token gives, and a change happens only through the token. |
| Auth.CheckAuthOtherKeys | src/contexts/AuthContext.tsx:23-57 | `checkAuth` changes no storage key other than `accessToken`. |
| Auth.CheckAuthIdempotent | src/contexts/AuthContext.tsx:23-57 | A second `checkAuth` changes nothing. |
| Auth.LoginEmptyToken | src/contexts/AuthContext.tsx:63-67 | `login("")` removes the token and keeps the user. |
| Auth.LoginValidToken | src/contexts/AuthContext.tsx:63-67 | `login(t)` with a token that gives user u stores `t` and sets u. |
| Auth.LoginInvalidToken | src/contexts/AuthContext.tsx:63-67 | `login(t)` with a token that gives no user leaves no token and keeps the previous user. |
| Auth.LoginFromAnonymous | src/contexts/AuthContext.tsx:63-67 | From an anonymous state, `login(t)` authenticates iff `t` is non-empty and its claims give a user. |
| Auth.LogoutClears | src/contexts/AuthContext.tsx:73-77 | `logout` removes the token and the user and keeps `isLoading`. Applying it twice equals applying it once. |
| Auth.StaleUserAfterFailedCheck | src/contexts/AuthContext.tsx:44-48 | A failed revalidation leaves a user present while no token is stored. |
| Auth.IsAuthenticated | src/contexts/AuthContext.tsx:111 | Holds iff a user is present. |
| Auth.HasRole | src/contexts/AuthContext.tsx:89-91 | Holds iff a user is present and holds the role. Stated by `AnonymousHasNoRights`, `RightsNeedAuthentication` and `ExactlyOneRole`. |
| Auth.IsAdmin | src/contexts/AuthContext.tsx:97-99 | Holds iff a user is present and the login is `admin`. Stated by `AdminIgnoresRole` and `AdminAndRoleDisagree`. |
| Auth.CanCreateBlog | src/contexts/AuthContext.tsx:101-103 | Equals `IsAdmin` (`RightsNeedAuthentication`). |
| Auth.CanCreatePost | src/contexts/AuthContext.tsx:105-107 | Equals `IsAdmin` (`RightsNeedAuthentication`). |
| Auth.AnonymousHasNoRights | src/contexts/AuthContext.tsx:89-111 | With no user, every query is false. |
| Auth.RightsNeedAuthentication | src/contexts/AuthContext.tsx:89-111 | `hasRole` and `isAdmin` imply `isAuthenticated`. `canCreateBlog` and `canCreatePost` equal `isAdmin`. |
| Auth.ExactlyOneRole | src/contexts/AuthContext.tsx:89-91 | A present user has exactly one of the two roles. |
| Auth.AdminIgnoresRole | src/contexts/AuthContext.tsx:97-99 | Changing a user's role never changes `isAdmin`. |
| Auth.AdminAndRoleDisagree | src/contexts/AuthContext.tsx:89-99 | A user can be admin with role USER, and can hold role ADMIN without being admin. |
| Auth.AdminTokenScenario | src/contexts/AuthContext.tsx:28-43 | Claims u1/admin/ADMIN are restored as user {u1, admin, '', ADMIN}, and `isAdmin` holds. |
| Auth.AuthProvider.constructor | src/contexts/AuthContext.tsx:16-17 | The initial state has no user and `isLoading` true. |
| Auth.AuthProvider.CheckAuth | src/contexts/AuthContext.tsx:23-57 | The new state is `CheckAuthStep` of the old state. |
| Auth.AuthProvider.Login | src/contexts/AuthContext.tsx:63-67 | The new state is `setAuthToken(t)` followed by `checkAuth`. |
| Auth.AuthProvider.Logout | src/contexts/AuthContext.tsx:73-77 | The new state is `LogoutStep` of the old state. |

## Left out

- `atob`, `decodeURIComponent` and `JSON.parse` are browser primitives. They are parameters, not re-verified. The model only proves that what they are given is correct: the translated segment, and an escape string that carries exactly the decoded bytes.
- Jwt.DecodeJwt: `JSON.parse("null")` and the other non-object results appear as `Some(...)` in the model, where JavaScript would return them as they are. Either way they give no user (`NonObjectYieldsNoUser`).
- JSON numbers are `real`. Floating-point detail is not modelled, because the session logic never looks at a number.
- The `catch` branch of `checkAuth` (src/contexts/AuthContext.tsx:50-53) is left out. Only a browser storage exception could reach it, because the decoder never throws and reading properties of a decoded value never throws. Storage exceptions are not modelled.
- `console.log` and `console.error` have no effect on behaviour, so they are not modelled.
- `async`/`await`, the mount effect that runs `checkAuth` once (src/contexts/AuthContext.tsx:80-82) and React's batching of state updates are not modelled. `checkAuth` and `login` are atomic, sequential transitions.
- `useAuth`, the context object and the rendering are not modelled.
- The `User` type marks `role` optional. Every user built here has a role, so the field is always present.
- The axios instance's fixed base URL and `Content-Type` header are configuration, not behaviour, so they are not modelled.
- Dafny's `string` is a sequence of Unicode scalar values, while JavaScript strings are sequences of UTF-16 code units. This does not matter here: `.`, `-` and `_` are ASCII, and `atob` rejects code units above 0xFF.
- The token's characters are not checked against the `b64token` grammar of RFC 6750, because the source does not check them.
