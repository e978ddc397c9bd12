# Identity service: sessions and authorization, modelled in Dafny

This project models the session and authorization core of a NestJS identity
service:

- **Refresh sessions.** `AuthService` keeps one Redis hash per user, under the
  key `user:<id>:sessions`, that maps each deviceId to the device's current
  refresh token. Login writes the entry. Refresh checks the presented token
  against it and rotates it. Logout deletes one device; logout-all deletes
  the whole hash. Profile lookup returns the user row without its password.
- **Effective permissions.** The `permissions` getter of the User entity
  flattens the permission names of every role and deduplicates them with a
  `Set`.
- **Authorization.** `PermissionsGuard.canActivate` admits a request only when
  its user holds every permission the route requires.
- **Role maintenance.** `RolesService` appends permissions to a role without
  repeating ids, removes permissions by id, flips the soft-delete flag, and
  throws NotFound for an unknown role.
- **Token claims.** The two passport strategies check their secret at
  construction time. Their `validate` callbacks reject missing claims, and the
  refresh strategy extracts the raw token by stripping `Bearer` from the
  Authorization header.
- **Responses.** `UsersController.toUserResponse` projects a user for clients.
  It drops the password hash and every role's and permission's `isActive`.

Layout, one module per source component:

| file | module | source |
|---|---|---|
| results.dfy | `Results` | Option, Result and the thrown exception kinds |
| entities.dfy | `Entities` | the User, Role and Permission rows |
| user_permissions.dfy | `UserPermissions` | src/users/entities/user.entity.ts |
| permissions_guard.dfy | `PermissionsGuard` | src/common/guards/permissions.guard.ts |
| js_string.dfy | `JsString` | ECMAScript `replace` (string pattern) and `trim` |
| jwt_strategies.dfy | `JwtStrategy`, `JwtRefreshStrategy` | src/auth/strategies/ |
| roles_service.dfy | `Roles` (class `RolesService`) | src/roles/roles.service.ts |
| users_lookup.dfy | `UsersLookup` | the two lookups of src/users/users.service.ts |
| redis_hashes.dfy | `RedisHashes` | HGET, HSET, HDEL and DEL on a keyspace of hashes |
| auth_service.dfy | `Auth` (class `AuthService`) | src/auth/auth.service.ts |
| users_controller.dfy | `UsersController` | `toUserResponse` |

How the model represents the source:

- The Redis store is the `sessions` field of `AuthService`. It is a keyspace
  `map<string, map<string, string>>` keyed by the literal Redis key.
  `SessionKeyInjective` proves that distinct user ids give distinct keys.
- `jwtService.sign` is the function-valued field `sign(payload, key,
  issuedAt)`. The issuing instant is a parameter of `Login` and
  `RefreshToken`, so a rotated token may differ from the one it replaces.
- `bcrypt.compare` is the function-valued field `passwordMatches`.
- The user table is a sequence of rows. The role table is a map from role id
  to role. The permission table is a sequence of rows.
- The eager loading of relations is an object invariant (`Valid`). Every user
  row has its roles. Every role in the role table has its permissions, with
  no repeated ids.
- JavaScript falsiness is written out. An absent value and the empty string
  are both falsy. This applies to the stored token, the Authorization header,
  `sub`, `deviceId` and the two secrets.

Where the code's behaviour may be unexpected, the model follows the code:

- An unknown email at login fails with NotFound, thrown by `findOneByEmail`.
  It is not reported as invalid credentials, and the `!user` test after the
  lookup never fires.
- `refreshToken` does not check `isActive`. A deleted user fails with
  NotFound, thrown by `findOne`, not with Unauthorized.
- A missing session and a mismatched token both fail with the same
  Unauthorized.

## Model

| member | source | states |
|---|---|---|
| `UserPermissions.Dedupe` | src/users/entities/user.entity.ts:95 | `[...new Set(s)]`: no duplicates, the same names as the input, never longer |
| `UserPermissions.EffectivePermissions` | src/users/entities/user.entity.ts:88-96 | `[]` when the roles relation is absent; otherwise `Dedupe(FlatNames(rs))`, so no duplicates and a name is listed iff some role grants it (order: `PermissionsInFirstOccurrenceOrder`) |
| `UserPermissions.AbsentRolesGrantNothing` | src/users/entities/user.entity.ts:89-91 | absent roles give the empty list |
| `UserPermissions.PermissionsAreGrantedNames` | src/users/entities/user.entity.ts:92-95 | no duplicate names; a name is listed iff some role holds a permission with it; at most as many names as permission entries |
| `UserPermissions.RoleWithoutPermissionsContributesNothing` | src/users/entities/user.entity.ts:93 | a role whose permissions are absent can be removed without changing the result |
| `UserPermissions.PermissionsInFirstOccurrenceOrder` | src/users/entities/user.entity.ts:92-95 | names appear in order of first occurrence, roles in order and each role's permissions in order |
| `PermissionsGuard.Includes` | src/common/guards/permissions.guard.ts:27 | `includes` is true iff the name is in the list |
| `PermissionsGuard.Every` | src/common/guards/permissions.guard.ts:26-28 | `every` is true iff each required name is in the granted list |
| `PermissionsGuard.CanActivate` | src/common/guards/permissions.guard.ts:9-29 | no metadata admits; metadata with no user or no permissions denies, even an empty list; otherwise admits iff every required name is granted |
| `PermissionsGuard.EmptyRequirementAdmitsAnyHolder` | src/common/guards/permissions.guard.ts:26-28 | an empty required list admits a user who carries a permissions list |
| `PermissionsGuard.MissingClaimIsDenied` | src/common/guards/permissions.guard.ts:21-23 | declared metadata denies a request without a user or without permissions |
| `PermissionsGuard.MonotoneInGranted` | src/common/guards/permissions.guard.ts:26-28 | for any user carrying a permissions claim, granting more names never turns allow into deny |
| `PermissionsGuard.AntitoneInRequired` | src/common/guards/permissions.guard.ts:26-28 | for any user carrying a permissions claim, requiring more names never turns deny into allow |
| `PermissionsGuard.OnlySetsMatter` | src/common/guards/permissions.guard.ts:26-28 | order and repetition in either list, and the user's other claims, do not change the decision |
| `JsString.TrimStart` | src/auth/strategies/jwt-refresh.strategy.ts:35 | removes exactly the longest whitespace prefix |
| `JsString.TrimEnd` | src/auth/strategies/jwt-refresh.strategy.ts:35 | removes exactly the longest whitespace suffix |
| `JsString.Trim` | src/auth/strategies/jwt-refresh.strategy.ts:35 | the result neither starts nor ends with whitespace |
| `JsString.IndexFrom` | src/auth/strategies/jwt-refresh.strategy.ts:35 | finds the first occurrence of the pattern at or after a position, or reports that there is none |
| `JsString.ReplaceFirst` | src/auth/strategies/jwt-refresh.strategy.ts:35 | replaces only the first occurrence, and leaves the string alone when there is none |
| `JsString.TrimRemovesPadding` | src/auth/strategies/jwt-refresh.strategy.ts:35 | whitespace added around a trimmed string trims away again |
| `JwtRefreshStrategy.NewJwtRefreshStrategy` | src/auth/strategies/jwt-refresh.strategy.ts:9-23 | construction fails iff the refresh secret is absent or empty; otherwise it uses that secret, checks expiry and passes the request to `validate` |
| `JwtRefreshStrategy.Validate` | src/auth/strategies/jwt-refresh.strategy.ts:25-37 | Unauthorized iff the header, `sub` or `deviceId` is falsy; otherwise `sub` and `deviceId` verbatim and the header with `Bearer` stripped, trimmed |
| `JwtRefreshStrategy.StripBearer` | src/auth/strategies/jwt-refresh.strategy.ts:35 | `Trim(ReplaceFirst(h, "Bearer", ""))`: never longer than the header, no surrounding whitespace, and a header without `Bearer` is only trimmed |
| `JwtRefreshStrategy.StripBearerRemovesFirstOccurrence` | src/auth/strategies/jwt-refresh.strategy.ts:35 | the token is the header with its first `Bearer` removed, then trimmed; without `Bearer` it is only trimmed |
| `JwtRefreshStrategy.BearerHeaderYieldsToken` | src/auth/strategies/jwt-refresh.strategy.ts:35 | the header `"Bearer " + t` yields `t` when `t` has no surrounding whitespace |
| `JwtStrategy.NewJwtStrategy` | src/auth/strategies/jwt.strategy.ts:8-23 | construction fails iff `JWT_SECRET` is absent or empty; otherwise it uses that secret and checks expiry |
| `JwtStrategy.Validate` | src/auth/strategies/jwt.strategy.ts:25-31 | Unauthorized iff the payload is missing or `sub` is falsy; otherwise exactly `sub`, `email`, `roles`, `permissions`, unchanged |
| `JwtStrategy.OtherClaimsAreDropped` | src/auth/strategies/jwt.strategy.ts:30 | no other claim influences the result |
| `Roles.Filter` | src/roles/roles.service.ts:76 | `filter` keeps exactly the entries satisfying the predicate and never grows |
| `Roles.CountCheckPasses` | src/roles/roles.service.ts:60-63 | the count check passes iff no id is repeated and every id names an active permission |
| `Roles.FindPermissionsByIds` | src/permissions/permissions.service.ts:53-55 | a row is returned iff it is in the table, its id is requested and it is active; never more rows than the table |
| `Roles.AssignAppendsOnlyNewIds` | src/roles/roles.service.ts:65-68 | the old list is an unchanged prefix; the appended entries are exactly the found ones whose id was not on the role, in the order they were found |
| `Roles.AssignKeepsDistinctIds` | src/roles/roles.service.ts:65-68 | assignment introduces no duplicate ids |
| `Roles.AssignIdempotent` | src/roles/roles.service.ts:65-68 | repeating the same assignment leaves the list unchanged |
| `Roles.UnassignFilters` | src/roles/roles.service.ts:76 | keeps exactly the entries whose id was not named, never adds any, and is idempotent |
| `Roles.UnassignKeepsOrder` | src/roles/roles.service.ts:76 | unassignment works entry by entry over concatenation, so relative order is kept |
| `Roles.RolesService.FindOneRole` | src/roles/roles.service.ts:26-32 | NotFound iff no role has the id, otherwise that role |
| `Roles.RolesService.RemoveRole` | src/roles/roles.service.ts:40-44 | NotFound and no change for an unknown id; otherwise only that role's `isActive` becomes false |
| `Roles.RolesService.EnableRole` | src/roles/roles.service.ts:46-50 | NotFound and no change for an unknown id; otherwise only that role's `isActive` becomes true |
| `Roles.RolesService.AssignPermissionsToRole` | src/roles/roles.service.ts:56-70 | NotFound for an unknown role; BadRequest with nothing saved when the found count differs from the requested count; otherwise the appended list is saved; ids stay distinct |
| `Roles.RolesService.UnassignPermissionsFromRole` | src/roles/roles.service.ts:72-79 | NotFound for an unknown role; otherwise the filtered list is saved; ids stay distinct |
| `UsersLookup.FindOneByEmail` | src/users/users.service.ts:17-23 | NotFound iff no row has the email, otherwise a row with that email |
| `UsersLookup.FindOne` | src/users/users.service.ts:71-77 | NotFound iff no row has the id, otherwise the row with that id |
| `RedisHashes.HGet` | src/auth/auth.service.ts:66 | the field's value when present in the key's hash, otherwise nothing |
| `RedisHashes.HSet` | src/auth/auth.service.ts:51 | sets one field of one hash; every other key is unchanged |
| `RedisHashes.HDel` | src/auth/auth.service.ts:102 | removes one field (no-op if absent); every other key is unchanged; no empty hash is left behind |
| `RedisHashes.Del` | src/auth/auth.service.ts:108 | removes the whole hash; every other key is unchanged |
| `Auth.AuthService.Login` | src/auth/auth.service.ts:19-62 | unknown email is NotFound and a wrong password Unauthorized, both with the store unchanged; otherwise the access payload is {sub, email, role names, user.permissions}, the refresh payload {sub, deviceId}, and only that device's entry is set to the new refresh token |
| `Auth.AuthService.RefreshToken` | src/auth/auth.service.ts:64-98 | Unauthorized, store unchanged, unless the stored token is non-empty and equals the presented one; NotFound, store unchanged, for a vanished user; otherwise only that device's entry is overwritten with the returned new refresh token |
| `Auth.AuthService.Logout` | src/auth/auth.service.ts:100-104 | removes only that device's entry and returns the same message either way |
| `Auth.AuthService.LogoutAll` | src/auth/auth.service.ts:106-110 | removes the user's whole session hash and returns a fixed message |
| `Auth.AuthService.GetProfile` | src/auth/auth.service.ts:112-119 | NotFound iff no user has the email; otherwise that user with exactly the password removed |
| `Auth.SessionKeyInjective` | src/auth/auth.service.ts:50 | `user:` + id + `:sessions` is injective in the id |
| `Auth.OtherUsersUntouched` | src/auth/auth.service.ts:50-51 | login, rotation, logout and logout-all for one user leave every other user's sessions equal |
| `Auth.OtherDevicesUntouched` | src/auth/auth.service.ts:95 | writing or deleting one device's entry does not change acceptance for another device |
| `Auth.SessionWriteDecidesAcceptance` | src/auth/auth.service.ts:68 | after a device's entry is set to a non-empty token, a presented token is accepted iff it is that token |
| `Auth.RotationRevokesPrevious` | src/auth/auth.service.ts:89-97 | after rotation the previous token is refused whenever the new token differs from it |
| `Auth.LogoutRevokesAndIsIdempotent` | src/auth/auth.service.ts:100-104 | after logout no token is accepted for that device, and a second logout changes nothing |
| `Auth.LogoutAllRevokesEveryDevice` | src/auth/auth.service.ts:106-110 | after logout-all no device of the user accepts any token, and a second call changes nothing |
| `Auth.ProfileDropsOnlyPassword` | src/auth/auth.service.ts:117-118 | putting the password back restores the user; two profiles are equal iff the users differ at most in their password |
| `Auth.IssuedTokenAuthorizesByRoles` | src/auth/auth.service.ts:33-38 | an access token issued at login passes the access strategy, and the guard admits it iff some role of the user grants each required name |
| `UsersController.ToUserResponse` | src/users/users.controller.ts:18-41 | id, username, email, firstName, lastName, createdAt and isActive pass through unchanged; `roles` is absent exactly when the user's roles are, and otherwise has one entry per role |
| `UsersController.ResponseIsExactlyThePublicView` | src/users/users.controller.ts:18-41 | two users get equal responses iff they differ at most in password and in role and permission `isActive`; so the hash never influences the response |
| `UsersController.ResponseKeepsOrderAndFields` | src/users/users.controller.ts:25-37 | role k of the response is role k without `isActive`; a role without permissions has none; permission j keeps its id and name |

## Left out

- JWT signing, verification and expiry (`jwtService.sign`, the passport signature and expiry checks) are left out; signing is the `sign` field. Nothing guarantees that a rotated token differs from the old one, so `Auth.RotationRevokesPrevious` takes this as a precondition.
- The token lifetimes `JWT_EXPIRATION_MS` and `JWT_REFRESH_TOKEN_EXPIRATION_MS` are left out. The secret is named only as the `SigningKey` chosen for each token.
- `bcrypt.compare` and `bcrypt.hash` are left out as cryptography; comparison is the `passwordMatches` field.
- The Redis client, TypeORM repositories and ConfigService are replaced by in-memory fields, because they are I/O. Store unavailability is not modelled.
- Concurrency is not modelled. Refresh, logout and login are unguarded read-then-write sequences, and the model runs each call to completion.
- `createRole`, `findAllRoles`, `updateRole` and `findOneRoleByName` of src/roles/roles.service.ts are plain repository CRUD and are not part of this model.
- The `users` back-reference of a role is not part of this model, because it is never loaded with a role.
- Of src/users/users.service.ts and src/permissions/permissions.service.ts only the NotFound lookups and `findPermissionsByIds` are modelled; the rest is repository and bcrypt plumbing.
- The HTTP layer is not part of this model. That covers controllers' routing, the refresh cookie, the response envelope interceptor, the exception filter, middleware, DTO validation, modules, bootstrap and console logging. In particular it leaves out the controller's use of `req.user.sub` where the refresh strategy sets `userId`, and the call of `getProfile` with an id.
- Exception messages are not modelled, only the exception classes. The two logout replies are modelled as constant messages.
- `Roles.FindPermissionsByIds`: the query at src/permissions/permissions.service.ts:54, and the eager `role.permissions` and `user.roles` relations, have no defined order in the source. The model takes sequence order and keeps a role's list order from one call to the next. The order properties (`Roles.AssignAppendsOnlyNewIds`, `Roles.UnassignKeepsOrder`, `UserPermissions.PermissionsInFirstOccurrenceOrder`) are claims about one call on the order it is given.
- `sub` is modelled as a string. A numeric `sub` of 0, which JavaScript also treats as falsy, is not represented.
