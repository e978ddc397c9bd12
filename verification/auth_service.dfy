/**
 * `AuthService`: login, refresh-token rotation, logout of one device or of
 * all devices, and the profile lookup. Refresh sessions live in Redis, one
 * hash per user under `user:<id>:sessions`, mapping deviceId to the current
 * refresh token.
 */
module Auth {
  import opened Results
  import opened Entities
  import opened UserPermissions
  import opened UsersLookup
  import opened RedisHashes
  import JwtStrategy
  import PermissionsGuard

  /** The Redis key of a user's session hash. */
  function SessionKey(userId: string): string
  {
    "user:" + userId + ":sessions"
  }

  /** The device-to-token sessions of one user. */
  function Sessions(ks: Keyspace, userId: string): Hash
  {
    HashAt(ks, SessionKey(userId))
  }

  /**
   * The session check of `refreshToken`: a stored token exists, is not the
   * (falsy) empty string, and equals the presented one.
   */
  predicate Accepts(ks: Keyspace, userId: string, deviceId: string, presented: string)
  {
    var stored := HGet(ks, SessionKey(userId), deviceId);
    stored.Some? && stored.value != "" && presented == stored.value
  }

  /** The access-token payload. */
  datatype AccessClaims = AccessClaims(sub: string, email: string, roles: seq<string>, permissions: seq<string>)

  /** The refresh-token payload: exactly the subject and the device. */
  datatype RefreshClaims = RefreshClaims(sub: string, deviceId: string)

  datatype Payload = Access(access: AccessClaims) | Refresh(refresh: RefreshClaims)

  /** `JWT_SECRET` (the module's default key) or `JWT_REFRESH_TOKEN_SECRET`. */
  datatype SigningKey = AccessTokenSecret | RefreshTokenSecret

  datatype TokenPair = TokenPair(accessToken: string, refreshToken: string)

  /** A user without the `password` field. */
  datatype UserProfile = UserProfile(
    id: string,
    username: string,
    email: string,
    firstName: string,
    lastName: string,
    createdAt: int,
    isActive: bool,
    roles: Option<seq<Role>>)

  /** `user.roles.map(r => r.name)` */
  function RoleNames(roles: seq<Role>): seq<string>
  {
    seq(|roles|, i requires 0 <= i < |roles| => roles[i].name)
  }

  /** The access-token payload built for a user. */
  function AccessClaimsOf(u: User): AccessClaims
    requires u.roles.Some?
  {
    AccessClaims(u.id, u.email, RoleNames(u.roles.value), Permissions(u))
  }

  /** `const { password, ...userProfile } = user` */
  function ProfileOf(u: User): UserProfile
  {
    UserProfile(u.id, u.username, u.email, u.firstName, u.lastName, u.createdAt, u.isActive, u.roles)
  }

  /** Puts a password back into a profile: the inverse of `ProfileOf`. */
  function WithPassword(p: UserProfile, password: string): User
  {
    User(p.id, p.username, password, p.email, p.firstName, p.lastName, p.createdAt, p.isActive, p.roles)
  }

  const LogoutMessage := "Sesión cerrada exitosamente."
  const LogoutAllMessage := "Todas las sesiones han sido cerradas."

  /**
   * The service. `sign` stands for `jwtService.sign` with the payload, the
   * key and the issuing instant; `passwordMatches` for `bcrypt.compare`.
   */
  class AuthService {
    var sessions: Keyspace
    var users: seq<User>
    const sign: (Payload, SigningKey, nat) -> string
    const passwordMatches: (string, string) -> bool

    /** Users are read with their roles relation loaded. */
    ghost predicate Valid()
      reads this
    {
      forall u :: u in users ==> u.roles.Some?
    }

    constructor (users: seq<User>, sign: (Payload, SigningKey, nat) -> string, passwordMatches: (string, string) -> bool)
      requires forall u :: u in users ==> u.roles.Some?
      ensures Valid() && sessions == map[] && this.users == users
      ensures this.sign == sign && this.passwordMatches == passwordMatches
    {
      this.sessions := map[];
      this.users := users;
      this.sign := sign;
      this.passwordMatches := passwordMatches;
    }

    /**
     * `login`: an unknown email is NotFound and a wrong password is
     * Unauthorized, both before any write; otherwise both tokens are signed
     * and the refresh token becomes the device's session.
     */
    method Login(email: string, password: string, deviceId: string, now: nat) returns (r: Result<TokenPair>)
      requires Valid()
      modifies this`sessions
      ensures Valid()
      ensures FindOneByEmail(users, email).Failure? ==> r == Failure(NotFound) && sessions == old(sessions)
      ensures FindOneByEmail(users, email).Success? ==>
                var u := FindOneByEmail(users, email).value;
                if !passwordMatches(password, u.password) then
                  r == Failure(Unauthorized) && sessions == old(sessions)
                else
                  && r.Success?
                  && r.value.accessToken == sign(Access(AccessClaimsOf(u)), AccessTokenSecret, now)
                  && r.value.refreshToken == sign(Refresh(RefreshClaims(u.id, deviceId)), RefreshTokenSecret, now)
                  && sessions == HSet(old(sessions), SessionKey(u.id), deviceId, r.value.refreshToken)
    {
      var found := FindOneByEmail(users, email);
      if found.Failure? {
        r := Failure(found.error);
        return;
      }
      var user := found.value;
      if !passwordMatches(password, user.password) {
        r := Failure(Unauthorized);
        return;
      }
      var accessToken := sign(Access(AccessClaimsOf(user)), AccessTokenSecret, now);
      var refreshToken := sign(Refresh(RefreshClaims(user.id, deviceId)), RefreshTokenSecret, now);
      sessions := HSet(sessions, SessionKey(user.id), deviceId, refreshToken);
      r := Success(TokenPair(accessToken, refreshToken));
    }

    /**
     * `refreshToken`: Unauthorized unless the device's stored token is the
     * presented one, NotFound if the user row is gone, both without writes;
     * otherwise the device's session is rotated to the new refresh token,
     * which is returned.
     */
    method RefreshToken(userId: string, deviceId: string, providedRefreshToken: string, now: nat)
      returns (r: Result<TokenPair>)
      requires Valid()
      modifies this`sessions
      ensures Valid()
      ensures !Accepts(old(sessions), userId, deviceId, providedRefreshToken) ==>
                r == Failure(Unauthorized) && sessions == old(sessions)
      ensures Accepts(old(sessions), userId, deviceId, providedRefreshToken) && FindOne(users, userId).Failure? ==>
                r == Failure(NotFound) && sessions == old(sessions)
      ensures Accepts(old(sessions), userId, deviceId, providedRefreshToken) && FindOne(users, userId).Success? ==>
                var u := FindOne(users, userId).value;
                && r.Success?
                && r.value.accessToken == sign(Access(AccessClaimsOf(u)), AccessTokenSecret, now)
                && r.value.refreshToken == sign(Refresh(RefreshClaims(userId, deviceId)), RefreshTokenSecret, now)
                && sessions == HSet(old(sessions), SessionKey(userId), deviceId, r.value.refreshToken)
    {
      var redisKey := SessionKey(userId);
      var stored := HGet(sessions, redisKey, deviceId);
      if stored.None? || stored.value == "" || providedRefreshToken != stored.value {
        r := Failure(Unauthorized);
        return;
      }
      var found := FindOne(users, userId);
      if found.Failure? {
        r := Failure(found.error);
        return;
      }
      var user := found.value;
      var accessToken := sign(Access(AccessClaimsOf(user)), AccessTokenSecret, now);
      var newRefreshToken := sign(Refresh(RefreshClaims(user.id, deviceId)), RefreshTokenSecret, now);
      sessions := HSet(sessions, redisKey, deviceId, newRefreshToken);
      r := Success(TokenPair(accessToken, newRefreshToken));
    }

    /** `logout`: forgets one device's session; the reply never depends on whether it existed. */
    method Logout(userId: string, deviceId: string) returns (message: string)
      modifies this`sessions
      ensures sessions == HDel(old(sessions), SessionKey(userId), deviceId)
      ensures message == LogoutMessage
    {
      sessions := HDel(sessions, SessionKey(userId), deviceId);
      message := LogoutMessage;
    }

    /** `logoutAll`: forgets every session of the user. */
    method LogoutAll(userId: string) returns (message: string)
      modifies this`sessions
      ensures sessions == Del(old(sessions), SessionKey(userId))
      ensures message == LogoutAllMessage
    {
      sessions := Del(sessions, SessionKey(userId));
      message := LogoutAllMessage;
    }

    /**
     * `getProfile`: NotFound for an unknown email; otherwise the user row
     * with exactly its password removed.
     */
    method GetProfile(userEmail: string) returns (r: Result<UserProfile>)
      ensures r.Failure? <==> forall u :: u in users ==> u.email != userEmail
      ensures r.Failure? ==> r.error == NotFound
      ensures r.Success? ==>
                var u := FindOneByEmail(users, userEmail).value;
                u.email == userEmail && WithPassword(r.value, u.password) == u
    {
      var found := FindOneByEmail(users, userEmail);
      if found.Failure? {
        r := Failure(found.error);
        return;
      }
      r := Success(ProfileOf(found.value));
    }
  }

  /** Distinct users have distinct Redis keys. */
  lemma {:induction false} SessionKeyInjective(a: string, b: string)
    requires SessionKey(a) == SessionKey(b)
    ensures a == b
  {
    var ka, kb := SessionKey(a), SessionKey(b);
    assert |a| == |ka| - 14 == |kb| - 14 == |b|;
    assert ka[5..5 + |a|] == a;
    assert kb[5..5 + |b|] == b;
  }

  /** A login, rotation, logout or logout-all for one user leaves every other user's sessions alone. */
  lemma OtherUsersUntouched(ks: Keyspace, userId: string, other: string, deviceId: string, token: string)
    requires other != userId
    ensures Sessions(HSet(ks, SessionKey(userId), deviceId, token), other) == Sessions(ks, other)
    ensures Sessions(HDel(ks, SessionKey(userId), deviceId), other) == Sessions(ks, other)
    ensures Sessions(Del(ks, SessionKey(userId)), other) == Sessions(ks, other)
  {
    if SessionKey(other) == SessionKey(userId) {
      SessionKeyInjective(other, userId);
    }
  }

  /** Writing a device's session leaves the user's other devices alone. */
  lemma OtherDevicesUntouched(ks: Keyspace, userId: string, deviceId: string, device: string, token: string, presented: string)
    requires device != deviceId
    ensures Accepts(HSet(ks, SessionKey(userId), deviceId, token), userId, device, presented) == Accepts(ks, userId, device, presented)
    ensures Accepts(HDel(ks, SessionKey(userId), deviceId), userId, device, presented) == Accepts(ks, userId, device, presented)
  {
  }

  /**
   * After a device's session is set to a non-empty token (login or
   * rotation), that token is accepted for the device and any other token,
   * in particular the one it replaced, is refused.
   */
  lemma SessionWriteDecidesAcceptance(ks: Keyspace, userId: string, deviceId: string, token: string, presented: string)
    requires token != ""
    ensures Accepts(HSet(ks, SessionKey(userId), deviceId, token), userId, deviceId, presented) <==> presented == token
  {
  }

  /** A rotated-out token is refused whenever the new token differs from it. */
  lemma RotationRevokesPrevious(ks: Keyspace, userId: string, deviceId: string, previous: string, rotated: string)
    requires Accepts(ks, userId, deviceId, previous)
    requires rotated != previous
    ensures !Accepts(HSet(ks, SessionKey(userId), deviceId, rotated), userId, deviceId, previous)
  {
  }

  /** After logout no token is accepted for that device, and repeating it changes nothing. */
  lemma LogoutRevokesAndIsIdempotent(ks: Keyspace, userId: string, deviceId: string, presented: string)
    ensures !Accepts(HDel(ks, SessionKey(userId), deviceId), userId, deviceId, presented)
    ensures HDel(HDel(ks, SessionKey(userId), deviceId), SessionKey(userId), deviceId) == HDel(ks, SessionKey(userId), deviceId)
  {
    var key := SessionKey(userId);
    var once := HDel(ks, key, deviceId);
    assert HashAt(once, key) - {deviceId} == HashAt(once, key);
  }

  /** After logout-all no device of the user is accepted, and repeating it changes nothing. */
  lemma LogoutAllRevokesEveryDevice(ks: Keyspace, userId: string)
    ensures forall deviceId, presented :: !Accepts(Del(ks, SessionKey(userId)), userId, deviceId, presented)
    ensures Del(Del(ks, SessionKey(userId)), SessionKey(userId)) == Del(ks, SessionKey(userId))
  {
  }

  /** The profile omits the password and nothing else: it is undone by putting the password back. */
  lemma ProfileDropsOnlyPassword(u: User, v: User)
    ensures WithPassword(ProfileOf(u), u.password) == u
    ensures ProfileOf(u) == ProfileOf(v) <==> u.(password := v.password) == v
  {
  }

  /** The access payload as the access strategy receives it back, with any extra claims. */
  function IssuedPayload(c: AccessClaims, extra: map<string, string>): JwtStrategy.AccessPayload
  {
    JwtStrategy.AccessPayload(Some(c.sub), Some(c.email), Some(c.roles), Some(c.permissions), extra)
  }

  /**
   * A token issued at login carries the user's effective permissions: a
   * guarded route admits it exactly when some role of the user grants
   * every required name.
   */
  lemma {:induction false} IssuedTokenAuthorizesByRoles(u: User, extra: map<string, string>, required: seq<string>)
    requires u.roles.Some? && u.id != ""
    ensures JwtStrategy.Validate(Some(IssuedPayload(AccessClaimsOf(u), extra))).Success?
    ensures var user := JwtStrategy.Validate(Some(IssuedPayload(AccessClaimsOf(u), extra))).value;
            PermissionsGuard.CanActivate(Some(required), Some(user)) <==>
              forall p :: p in required ==> Grants(u.roles.value, p)
  {
    PermissionsAreGrantedNames(u);
  }
}
