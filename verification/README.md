# AudiologyLink credential and session lifecycle, in Dafny

This project models the backend authentication core of AudiologyLink and proves properties of it:

- the `AuthService` operations `register`, `login`, `refresh`, `validateUser` and `issueTokens`, with the pure helpers `parseTtlSeconds`, `getExpiryDate` and `normalizeRoles`;
- the two credential stores: the map-based `InMemoryAuthRepository` and the observable semantics of `PostgresAuthRepository`;
- the schema-name validator both relational repositories use, and the clinic-status fallback;
- the `RolesGuard` decision and the authentication cookie policy;
- the start-up code in `auth.module.ts`: seed roles, the seed user and the choice of repository;
- the frontend route gate (`middleware`);
- the two education handlers that check before they create (`RegisterStudent`, `EnrollInCourse`).

Every operation is a pure function, or a method without side effects, from the store, the configuration, the request, any fresh ids and the clock reading `now` (epoch milliseconds) to a result and the next store. Errors are values: `Result`, or a `Step(result, store)` pair.

The crypto collaborators are values:

- `Crypto.Hasher` holds `hash` and `compare`.
- `Crypto.Codec` holds `sign` and `verify`.
- The two laws the service relies on are stated as predicates, not axioms. `Sound` says `compare(v, hash(v))`. `RoundTrips` says `verify(sign(c, k, t), k) == Some(c)`. Each law is a precondition only of the lemmas that need it.
- The unit tests' `"hashed:" + v` hasher is `Crypto.PrefixHasher`, proved sound.

Files:

| file | module | contents |
|---|---|---|
| wrappers.dfy | Wrappers | `Option`, `Result` |
| js_text.dfy | JsText | `trim`, `toLowerCase`, `startsWith`, `split`, `join` |
| roles.dfy | Roles | `AUTH_ROLES` and role names |
| ttl.dfy | Ttl | the TTL grammar, `parseTtlSeconds`, `getExpiryDate` |
| crypto.dfy | Crypto | hasher and token codec |
| auth_types.dfy | AuthTypes | users, refresh records, claims, principals |
| user_directory.dfy | UserDirectory | the id and lower-cased-email user maps |
| credential_store.dfy | CredentialStore | the abstract store, keyed by the pair (userId, tokenId) |
| in_memory_auth_repository.dfy | InMemoryAuthRepository | the string-keyed repository, and its refinement of the abstract store |
| rows.dfy | Rows | first-match and delete over rows in scan order |
| postgres_auth_repository.dfy | PostgresAuthRepository | the relational repository as row sequences |
| schema_name.dfy | SchemaName | `getSchemaName` and the repository constructors |
| auth_service.dfy | AuthService | the service operations |
| auth_service_properties.dfy | AuthServiceProperties | properties spanning several calls |
| roles_guard.dfy | RolesGuard | `canActivate` |
| cookie_policy.dfy | CookiePolicy | `setAuthCookies`, `clearAuthCookies` |
| auth_bootstrap.dfy | AuthBootstrap | `parseRoles`, `getSeedUser`, the repository factory |
| clinic_status.dfy | ClinicStatus | `getCurrentStatus` |
| route_gate.dfy | RouteGate | the frontend `middleware` |
| education.dfy | Education | `RegisterStudent`, `EnrollInCourse` |

Notes on the code's behaviour:

- `AuthService` reads the secrets on every call, not once. `issueTokens` reads both, so inside the service a missing secret is a per-call `ConfigError`. In `register` it comes after the user has been saved; in `refresh` it comes after the presented record has been deleted (`AuthService.Register`, `AuthService.Refresh`).
- `verifyRefreshToken` also reads `JWT_REFRESH_SECRET`. It does so inside its `try`, so a missing refresh secret is reported as an invalid token (`AuthService.VerifyRefreshToken`).
- A missing `JWT_ACCESS_SECRET` also aborts start-up. The `JwtStrategy` constructor reads it (`apps/backend/src/modules/auth/infrastructure/jwt.strategy.ts`, line 36), and the module registers that strategy as a provider (`auth.module.ts`, line 72). In a running application, therefore, only the refresh secret can be missing at call time. The service model keeps both per-call checks, as the service code has them.
- Expired and invalid refresh tokens carry different messages ("Refresh token expired", "Invalid refresh token"), as the code throws them.
- `parseTtlSeconds` in `cookie.helper.ts` is the same function as the one in `auth.service.ts`: same grammar, same multipliers, same fallback. It is modelled once, as `Ttl.ParseTtlSeconds`, and used by both `AuthService` and `CookiePolicy`.

## Model

| member | source | states |
|---|---|---|
| Ttl.MatchDuration | apps/backend/src/modules/auth/domain/auth.service.ts:38-44 | a string matches exactly when it is at least one ASCII digit followed by one of `s`, `m`, `h`, `d`; the unit is that last letter and the amount the decimal value of the digits, leading zeros allowed |
| Ttl.ParseTtlSeconds | apps/backend/src/modules/auth/domain/auth.service.ts:30-53 | an unset, empty or non-matching value gives the fallback; a matching one gives the amount times the unit's seconds, never negative |
| Ttl.ExpiryDate | apps/backend/src/modules/auth/domain/auth.service.ts:203-220 | never before `now`, and, despite its separate millisecond table, exactly `parseTtlSeconds(duration, 7 days) × 1000` after it, so an unusable duration means seven days |
| Ttl.MatchFormat | apps/backend/src/modules/auth/domain/auth.service.ts:38-44 | every duration has a spelling (canonical digits then a unit letter) that the TTL grammar accepts and reads back as the same amount and unit |
| Ttl.DecimalRoundTrip | apps/backend/src/modules/auth/domain/auth.service.ts:43 | `parseInt` of the canonical decimal spelling of n is n |
| Ttl.ParseTtlSecondsMeaning | apps/backend/src/modules/auth/domain/auth.service.ts:30-53 | every matching TTL, leading zeros included, and the canonical spelling of its duration read as amount × 1, 60, 3600 or 86400 seconds for s, m, h or d; unset, empty and non-matching values give the fallback |
| Ttl.RefreshExpiryAgrees | apps/backend/src/modules/auth/domain/auth.service.ts:170-176 | for every `JWT_REFRESH_TTL` (unset, empty, malformed or well-formed) the persisted expiry `getExpiryDate(ttl ?? '7d')` is exactly the signed refresh lifetime × 1000 after `now` |
| Roles.NameRoundTrip | apps/backend/src/modules/auth/contracts/auth.roles.ts:1-9 | a role's name parses back to that role, and only the five names parse |
| Crypto.PrefixHasherSound | apps/backend/src/modules/auth/domain/auth.service.spec.ts:7-15 | the test hasher satisfies compare(v, hash(v)) and rejects every other digest |
| AuthService.RequiredEnv | apps/backend/src/modules/auth/domain/auth.service.ts:22-28 | a variable is accepted exactly when it is set and non-empty; otherwise the error is "`NAME` is not set" |
| AuthService.NormalizeRoles | apps/backend/src/modules/auth/domain/auth.service.ts:222-236 | a missing or empty list gives `[patient]`; otherwise success iff every trimmed entry is a role, the result being the trimmed list in order; a failure lists every unrecognised trimmed name, and only those |
| AuthService.IssueTokens | apps/backend/src/modules/auth/domain/auth.service.ts:152-186 | fails (store unchanged) iff a secret is missing; otherwise signs exactly `{sub, email, roles}` and `{sub, tokenId}` and adds exactly one record holding the user id, the fresh token id, hash(refresh token) and an expiry one refresh lifetime after `now` |
| AuthService.Login | apps/backend/src/modules/auth/domain/auth.service.ts:65-80 | an unknown email and a wrong password both give exactly Unauthorized "Invalid credentials" with the store unchanged; a found user whose password compares is issued tokens for exactly that user; users are never changed |
| AuthService.Register | apps/backend/src/modules/auth/domain/auth.service.ts:82-101 | a taken email (any casing) or an invalid role fails with the store unchanged; a free email with valid roles saves the new user (hashed password, normalised roles) and issues tokens for it, succeeding whenever both secrets are set; success makes the new user findable by id and by email; a store change on failure is only the saved user before a missing secret |
| AuthService.Refresh | apps/backend/src/modules/auth/domain/auth.service.ts:103-137 | unverifiable token or missing record: invalid, no change; `expiresAt < now`: that record is deleted and "expired" reported; hash mismatch: invalid, record kept; not expired and hash matched: the presented pair is deleted, then tokens are issued for the user `sub` names, or, if that user is gone, "User not found" with the pair still deleted; success implies that path; users never changed |
| AuthService.VerifyRefreshToken | apps/backend/src/modules/auth/domain/auth.service.ts:188-201 | with the refresh secret unset or empty the token is rejected; otherwise the result is exactly what verification under that secret gives |
| AuthService.ValidateUser | apps/backend/src/modules/auth/domain/auth.service.ts:139-150 | succeeds iff a user with id `sub` is stored, returning its id, email and roles; otherwise "User not found" |
| AuthServiceProperties.IssuedTokensVerify | apps/backend/src/modules/auth/domain/auth.service.ts:153-173 | with round-tripping codecs, the issued tokens verify to exactly the claims they were signed with |
| AuthServiceProperties.RefreshIsSingleUse | apps/backend/src/modules/auth/domain/auth.service.ts:129-136 | after a successful refresh with a fresh token id, replaying the same token fails as invalid with the store unchanged, whatever the clock |
| AuthServiceProperties.ExpiredRefreshIsConsumed | apps/backend/src/modules/auth/domain/auth.service.ts:113-119 | the attempt that finds a record expired deletes it, so the next attempt reports invalid, not expired |
| AuthServiceProperties.IssuedRefreshTokenRefreshes | apps/backend/src/modules/auth/domain/auth.service.ts:103-137 | a refresh token just issued to a stored user rotates successfully at any time before its signed `exp` second, which never lies after the stored `expiresAt` |
| AuthServiceProperties.RegisterThenLogin | apps/backend/src/modules/auth/domain/auth.service.ts:65-101 | with a sound hasher, logging in with the registered email and password succeeds |
| AuthServiceProperties.LoginFailuresIndistinguishable | apps/backend/src/modules/auth/domain/auth.service.ts:65-77 | a wrong password for a known email and any password for an unknown email give identical results and leave their stores unchanged |
| AuthServiceProperties.DuplicateRegistrationRejected | apps/backend/src/modules/auth/domain/auth.service.ts:82-86 | re-registering an email in any letter case fails and leaves the first user as it was |
| AuthServiceProperties.DefaultRoleIsPatient | apps/backend/src/modules/auth/domain/auth.service.spec.ts:36-44 | registering a free email without roles stores a user with exactly the role `patient`, even if issuing tokens then fails, and succeeds when both secrets are set |
| AuthServiceProperties.OperationsPreserveValid | apps/backend/src/modules/auth/domain/auth.service.ts:65-137 | register, login and refresh keep ids, lower-cased email keys and record keys consistent with the records they hold |
| UserDirectory.Save | apps/backend/src/modules/auth/infrastructure/in-memory-auth.repository.ts:51-54 | after `storeUser(u)`, `u.id` and `u.email` find `u`, other ids are unchanged, and map consistency is kept |
| UserDirectory.FindByEmailIgnoresCase | apps/backend/src/modules/auth/infrastructure/in-memory-auth.repository.ts:16-18 | two emails equal up to letter case find the same user |
| UserDirectory.SaveThenFindByEmail | apps/backend/src/modules/auth/infrastructure/in-memory-auth.repository.ts:51-54 | after saving `u`, every casing of its email finds `u`, and every other email finds what it found before |
| UserDirectory.StaleEmailEntry | apps/backend/src/modules/auth/infrastructure/in-memory-auth.repository.ts:51-54 | re-saving an id under a new email overwrites the id entry but leaves the old email entry holding the old record |
| CredentialStore.SaveRefreshToken | apps/backend/src/modules/auth/infrastructure/in-memory-auth.repository.ts:29-35 | afterwards the record is found under its own pair (overwriting an earlier one), every other pair is unchanged and users are untouched |
| CredentialStore.RevokeRefreshToken | apps/backend/src/modules/auth/infrastructure/in-memory-auth.repository.ts:46-49 | afterwards the pair finds nothing, every other pair is unchanged and users are untouched |
| CredentialStore.RevokeIdempotent | apps/backend/src/modules/auth/infrastructure/in-memory-auth.repository.ts:46-49 | revoking twice is revoking once, and revoking an absent pair changes nothing |
| InMemoryAuthRepository.New | apps/backend/src/modules/auth/infrastructure/in-memory-auth.repository.ts:12-14 | the constructor stores each seed user as `saveUser` would: every seed id is present, each seed is found by its id unless a later seed reuses that id, the maps are consistent, and there are no refresh records |
| InMemoryAuthRepository.SaveUser | apps/backend/src/modules/auth/infrastructure/in-memory-auth.repository.ts:24-27 | `u.id` finds `u`, other ids are unchanged, refresh records untouched |
| InMemoryAuthRepository.RefreshKey | apps/backend/src/modules/auth/infrastructure/in-memory-auth.repository.ts:56-58 | the key is the user id, one `':'`, then the token id, each readable back at its position |
| InMemoryAuthRepository.SaveRefreshToken | apps/backend/src/modules/auth/infrastructure/in-memory-auth.repository.ts:29-35 | the record is found under its own pair afterwards; every pair with a different key answers as before; users untouched |
| InMemoryAuthRepository.FindRefreshToken | apps/backend/src/modules/auth/infrastructure/in-memory-auth.repository.ts:37-44 | finds a record iff one is filed under the pair's `userId:tokenId` key, and only stored records are returned |
| InMemoryAuthRepository.RevokeRefreshToken | apps/backend/src/modules/auth/infrastructure/in-memory-auth.repository.ts:46-49 | nothing is found under the pair afterwards; every pair with a different key answers as before; users untouched |
| InMemoryAuthRepository.RefreshKeyInjective | apps/backend/src/modules/auth/infrastructure/in-memory-auth.repository.ts:56-58 | `userId:tokenId` keys of two pairs whose user ids contain no ':' coincide only for the same pair |
| InMemoryAuthRepository.RefreshKeyCollision | apps/backend/src/modules/auth/infrastructure/in-memory-auth.repository.ts:56-58 | without that condition ("a:b","c") and ("a","b:c") share a key: one pair's record is found and deleted through the other |
| InMemoryAuthRepository.AbstractNew | apps/backend/src/modules/auth/infrastructure/in-memory-auth.repository.ts:12-14 | a fresh repository satisfies the key invariant and abstracts to a store with no refresh records |
| InMemoryAuthRepository.FindRefreshRefines | apps/backend/src/modules/auth/infrastructure/in-memory-auth.repository.ts:37-44 | `findRefreshToken` answers exactly as the pair-keyed store does |
| InMemoryAuthRepository.SaveRefreshRefines | apps/backend/src/modules/auth/infrastructure/in-memory-auth.repository.ts:29-35 | `saveRefreshToken` keeps the key invariant and commutes with the abstraction to the pair-keyed store |
| InMemoryAuthRepository.RevokeRefines | apps/backend/src/modules/auth/infrastructure/in-memory-auth.repository.ts:46-49 | `revokeRefreshToken` keeps the key invariant and commutes with the abstraction |
| InMemoryAuthRepository.UserOpsRefine | apps/backend/src/modules/auth/infrastructure/in-memory-auth.repository.ts:16-27 | the user operations commute with the abstraction |
| PostgresAuthRepository.FindByEmail | apps/backend/src/modules/auth/infrastructure/postgres-auth.repository.ts:36-46 | returns a row whose email equals the argument up to `lower()`, and nothing only when no row matches |
| PostgresAuthRepository.FindById | apps/backend/src/modules/auth/infrastructure/postgres-auth.repository.ts:48-58 | returns a row with that id, and nothing only when none exists |
| PostgresAuthRepository.SaveUser | apps/backend/src/modules/auth/infrastructure/postgres-auth.repository.ts:60-68 | upsert on `user_id`: afterwards the id finds exactly the new user (email, hash and roles overwritten), other ids are unchanged, one row is added only for a new id, and id uniqueness is kept |
| PostgresAuthRepository.ChangedEmailForgotten | apps/backend/src/modules/auth/infrastructure/postgres-auth.repository.ts:60-68 | unlike the in-memory store, after an email change the old email no longer finds that user |
| PostgresAuthRepository.SaveRefreshToken | apps/backend/src/modules/auth/infrastructure/postgres-auth.repository.ts:70-76 | a record for a pair not yet stored becomes findable; every other pair answers as before |
| PostgresAuthRepository.FindRefreshToken | apps/backend/src/modules/auth/infrastructure/postgres-auth.repository.ts:78-91 | at most one record, matching both `user_id` and `token_id`, and nothing only when no row matches both |
| PostgresAuthRepository.RevokeRefreshToken | apps/backend/src/modules/auth/infrastructure/postgres-auth.repository.ts:93-98 | deletes exactly the rows matching both keys; other pairs answer as before; a no-op when none match |
| PostgresAuthRepository.RevokeIdempotent | apps/backend/src/modules/auth/infrastructure/postgres-auth.repository.ts:93-98 | deleting a pair twice is deleting it once |
| PostgresAuthRepository.TokenOpsRefine | apps/backend/src/modules/auth/infrastructure/postgres-auth.repository.ts:70-98 | the token table and the pair-keyed store answer every lookup alike before and after a save of a fresh pair and after any delete |
| SchemaName.Matches | apps/backend/src/modules/auth/infrastructure/postgres-auth.repository.ts:9 | the left-to-right scan accepts exactly the language `^[a-zA-Z_][a-zA-Z0-9_]*$` |
| SchemaName.GetSchemaName | apps/backend/src/modules/auth/infrastructure/postgres-auth.repository.ts:8-13 | returns its input unchanged iff it is an identifier, else "Invalid schema name" |
| SchemaName.AcceptedNamesAreInert | apps/backend/src/modules/clinic-status/infrastructure/postgres-clinic-status.repository.ts:5-10 | an accepted name contains no quote, semicolon, dot, comment marker, bracket or space |
| SchemaName.SchemaFromEnv | apps/backend/src/modules/auth/infrastructure/postgres-auth.repository.ts:25 | the default applies only when the variable is unset; an empty value is kept and rejected |
| SchemaName.Connect | apps/backend/src/modules/auth/infrastructure/postgres-auth.repository.ts:19-25 | succeeds iff `DATABASE_URL` is set and non-empty and the schema is an identifier, with that schema; an unset or empty URL is "DATABASE_URL is not set" |
| SchemaName.SchemaDefaults | apps/backend/src/modules/clinic-status/infrastructure/postgres-clinic-status.repository.ts:22 | with no schema variable the schemas are `auth` and `clinic`; an empty variable is rejected |
| ClinicStatus.GetCurrentStatus | apps/backend/src/modules/clinic-status/infrastructure/postgres-clinic-status.repository.ts:33-51 | with rows, returns one of them with no later `updated_at`; with none, `unknown` / `Unknown Clinic` / closed at `now` |
| ClinicStatus.LatestIsDetermined | apps/backend/src/modules/clinic-status/infrastructure/postgres-clinic-status.repository.ts:34-39 | any two correct answers carry the same `updated_at` |
| ClinicStatus.NewestWriteWins | apps/backend/src/modules/clinic-status/infrastructure/postgres-clinic-status.repository.ts:34-39 | a status stored later than every other is the one reported |
| RolesGuard.RequiredRoles | apps/backend/src/modules/auth/contracts/guards.ts:16-20 | handler metadata if defined, else class metadata, else no requirement |
| RolesGuard.CanActivate | apps/backend/src/modules/auth/contracts/guards.ts:15-36 | allowed iff the effective requirement (handler metadata, else class metadata, else none) is empty, or a user is present holding at least one required role |
| RolesGuard.SomeHeld | apps/backend/src/modules/auth/contracts/guards.ts:35 | true iff some required role is among the user's roles |
| RolesGuard.DecideMeaning | apps/backend/src/modules/auth/contracts/guards.ts:22-35 | allow iff nothing is required, or a user is present holding at least one required role (OR semantics) |
| RolesGuard.MetadataOverride | apps/backend/src/modules/auth/contracts/guards.ts:16-24 | handler metadata, even an empty list, overrides class metadata; with neither, every request is allowed |
| RolesGuard.AnonymousDenied | apps/backend/src/modules/auth/contracts/guards.ts:26-33 | a non-empty requirement denies a request without a user |
| RolesGuard.DecideMonotone | apps/backend/src/modules/auth/contracts/guards.ts:35 | more roles for the user, or more alternatives in a non-empty requirement, never turn allow into deny |
| CookiePolicy.SetAuthCookies | apps/backend/src/modules/auth/infrastructure/cookie.helper.ts:29-55 | two cookies, `accessToken` on `/` and `refreshToken` on `/api/auth`, both httpOnly and sameSite strict, secure iff `NODE_ENV` is `production`, max ages the parsed TTLs × 1000 |
| CookiePolicy.ClearAuthCookies | apps/backend/src/modules/auth/infrastructure/cookie.helper.ts:57-71 | clears `accessToken` then `refreshToken` |
| CookiePolicy.ClearMatchesSet | apps/backend/src/modules/auth/infrastructure/cookie.helper.ts:40-71 | each cleared cookie has the name, path and flags of the cookie set in its place |
| CookiePolicy.DefaultLifetimes | apps/backend/src/modules/auth/infrastructure/cookie.helper.ts:3-4 | with no usable TTL the cookies last 900 000 ms and 604 800 000 ms |
| CookiePolicy.RefreshCookieMatchesRecord | apps/backend/src/modules/auth/infrastructure/cookie.helper.ts:34-38 | the cookie max ages equal the signed token lifetimes, and, for the same clock reading, the refresh cookie expires exactly when the persisted record does |
| AuthBootstrap.KeepRoles | apps/backend/src/modules/auth/auth.module.ts:29-34 | the result is no longer than the input, holds only named roles, and holds every role that is named |
| AuthBootstrap.ParseRoles | apps/backend/src/modules/auth/auth.module.ts:24-35 | `[]` for an unset or empty value; otherwise no longer than the number of comma pieces, and a role is in it iff some trimmed piece names it |
| AuthBootstrap.KeepRolesAppend | apps/backend/src/modules/auth/auth.module.ts:29-34 | filtering distributes over concatenation, so order is kept and a dropped piece affects nothing around it |
| AuthBootstrap.ParseRolesRoundTrip | apps/backend/src/modules/auth/auth.module.ts:24-35 | a non-empty role list written comma-separated parses back to exactly that list |
| AuthBootstrap.UnknownSeedRoleDropped | apps/backend/src/modules/auth/auth.module.ts:29-34 | an unknown piece is silently dropped by `parseRoles`, while `normalizeRoles` rejects the same list |
| AuthBootstrap.GetSeedUser | apps/backend/src/modules/auth/auth.module.ts:37-56 | no seed iff email or password is unset or empty; otherwise the seed has the given id, email and hash(password), and the parsed roles, or `[admin]` when none parse |
| AuthBootstrap.SeedDefaultsToAdmin | apps/backend/src/modules/auth/auth.module.ts:46-47 | an unset or empty role variable, or one none of whose comma pieces trims to a role name (`superuser,guest`), gives an administrator |
| AuthBootstrap.CreateRepository | apps/backend/src/modules/auth/auth.module.ts:82-89 | relational iff `DATABASE_URL` is truthy (failing only on a bad schema name), otherwise in-memory; the seed user, if any, is then findable by id, and with no seed nothing is written |
| RouteGate.IsPublicAmong | apps/frontend/src/middleware.ts:4-9 | public iff the pathname starts with one of the public prefixes |
| RouteGate.Middleware | apps/frontend/src/middleware.ts:6-25 | public with a token goes home; non-public without a token goes to `/login` with `from` set to the pathname; everything else passes through; exactly one outcome applies |
| RouteGate.PublicIsLoginPrefix | apps/frontend/src/middleware.ts:4-9 | public means starts with `/login`, so `/login-x` is public and `/dashboard` is not |
| RouteGate.NoRedirectLoop | apps/frontend/src/middleware.ts:13-24 | following either redirect with the same cookie state passes straight through |
| Education.RegisterStudent | apps/backend/src/modules/education/features/RegisterStudent/handler.ts:14-28 | an existing profile for the user is a conflict that creates nothing; otherwise exactly one profile is added, with the user's id, the request's university and student number, pending, inactive, no expiry; one profile per user is kept |
| Education.EnrollInCourse | apps/backend/src/modules/education/features/EnrollInCourse/handler.ts:14-39 | no profile, or an existing enrollment for (profile id, course), is a conflict that creates and emits nothing; otherwise one enrollment keyed by the profile id is added and exactly one `student.enrolled` event carrying its id is emitted |
| Education.RegisterTwiceConflicts | apps/backend/src/modules/education/features/RegisterStudent/handler.ts:15-18 | a second registration of the same user conflicts and changes nothing |
| Education.EnrollTwiceConflicts | apps/backend/src/modules/education/features/EnrollInCourse/handler.ts:22-25 | a second enrollment in the same course conflicts, creates nothing and emits nothing |
| Education.SequentialUseIsConsistent | apps/backend/src/modules/education/features/EnrollInCourse/handler.ts:14-39 | any sequence of registrations and enrollments keeps at most one profile per user, one enrollment per (student, course), and one event per enrollment |

## Left out

- JWT signing and verification internals, including the `exp` check inside `verifyAsync`. A codec is any pair of functions, and the round-trip law is assumed only where a lemma needs it.
- bcrypt's per-call salt and its cost. Hashing is deterministic here: `hash(v)` is one fixed value for each `v`. Only `compare(v, hash(v))` is ever assumed about a hasher.
- `randomUUID`, `Date.now` and `process.env`: fresh ids, `now` and configuration values are parameters. Freshness of a token id is a precondition of the lemmas that need it (`FreshTokenId`).
- Ttl.ParseTtlSeconds: does not model IEEE-754 precision of `parseInt` or of the products, because the model's integers are exact; huge TTLs that lose precision in JavaScript are exact here.
- Ttl.ExpiryDate: does not model the `Date` range limit (a time beyond ±8.64e15 ms becomes an invalid date, whose `getTime()` comparison is always false), for the same reason.
- JsText.ToLower: lower-cases ASCII letters only. `toLowerCase()` and SQL `lower()` also fold other scripts, so email matching is modelled for ASCII addresses.
- ClinicStatus.GetCurrentStatus: when several rows share the latest `updated_at` the database may return any of them; the scan returns the first. `updatedAt` is a millisecond number, not the ISO string the fallback formats with `toISOString()`.
- AuthServiceProperties.IssuedRefreshTokenRefreshes: the codec has no clock, so the model's `Refresh` accepts a refresh token after its JWT `exp`. The program's `verifyAsync` rejects a token once the current second reaches `exp`, which is the signing second plus the lifetime and so never after the stored `expiresAt`. The lemma is therefore stated only for times before `exp`.
- AuthServiceProperties.ExpiredRefreshIsConsumed: for a token the service issued itself under an unchanged `JWT_REFRESH_TTL`, the JWT `exp` check rejects the token before the record's `expiresAt` passes. `issueTokens` fixes both the signed lifetime and the stored expiry in the same call, and `Ttl.RefreshExpiryAgrees` shows they are equal, so a later change of TTL changes neither. The expired-and-delete path is therefore reachable in the program only if the clock steps back between signing the token and stamping the record, or for records written by other means.
- The start-up failure caused by a missing `JWT_ACCESS_SECRET`, which comes from the `JwtStrategy` constructor, is not modelled; the strategy's token extraction and validation are framework wiring.
- CookiePolicy.RefreshCookieMatchesRecord: relates cookie and record for one clock reading. The program stamps the record in `getExpiryDate` and the response reads the clock again when it sets the cookie, so the cookie outlives the record by that interval.
- PostgresAuthRepository.SaveRefreshToken: modelled as a plain append. The code is a plain `insert` and does not show whether the table has a uniqueness constraint on (user_id, token_id); the model assumes none. The service only ever inserts a freshly drawn token id, and the contract says nothing about a pair already stored.
- AuthService.Refresh: the guarantee that the presented pair is gone after a success needs the new token id to differ from the presented one, which a fresh `randomUUID()` gives.
- Education.EnrollInCourse: an enrollment holds only its id, student id and course; the `active` status, zero progress and timestamps written by the relational repository are not modelled, and neither is that repository.
- SQL plumbing (pool, SSL, query text), transport failures of the database (`StoreUnavailable`), and `postgres-education.repository.ts` / `postgres-student-profile.repository.ts`, whose behaviour is SQL.
- Framework wiring: NestJS modules, dependency injection, decorators, controllers and endpoints, the `jwt.strategy.ts` extraction, and the middleware `matcher` regex.
- The thin education handlers (`verify-student`, `submit-quiz-attempt`, `get-student-progress`, `track-lesson-progress`), each a not-found check and one repository call.
- Concurrency: the check-then-save races in `register` and `RegisterStudent`. Only sequential executions are modelled.
- The frontend and CMS user interface.
