/**
 * The access-token passport strategy: its construction-time secret check
 * and the `validate` callback that turns verified claims into `request.user`.
 */
module JwtStrategy {
  import opened Results

  /** The options handed to passport-jwt. */
  datatype StrategyOptions = StrategyOptions(secretOrKey: string, ignoreExpiration: bool, passReqToCallback: bool)

  /** Verified access-token claims; `otherClaims` holds the rest (`iat`, `exp`, ...). */
  datatype AccessPayload = AccessPayload(
    sub: Option<string>,
    email: Option<string>,
    roles: Option<seq<string>>,
    permissions: Option<seq<string>>,
    otherClaims: map<string, string>)

  /** What `validate` puts on the request as `request.user`. */
  datatype AccessUser = AccessUser(
    sub: string,
    email: Option<string>,
    roles: Option<seq<string>>,
    permissions: Option<seq<string>>)

  /** The constructor: a missing or empty `JWT_SECRET` stops the application. */
  function NewJwtStrategy(jwtSecret: Option<string>): (r: Result<StrategyOptions>)
    ensures r.Failure? <==> !Truthy(jwtSecret)
    ensures r.Failure? ==> r.error == MissingConfiguration
    ensures r.Success? ==> r.value.secretOrKey == jwtSecret.value && !r.value.ignoreExpiration
  {
    if !Truthy(jwtSecret) then Failure(MissingConfiguration)
    else Success(StrategyOptions(jwtSecret.value, false, false))
  }

  /**
   * `validate`: a missing payload or a falsy `sub` is Unauthorized; otherwise
   * the four claims pass through unchanged and every other claim is dropped.
   */
  function Validate(payload: Option<AccessPayload>): (r: Result<AccessUser>)
    ensures r.Failure? <==> payload.None? || !Truthy(payload.value.sub)
    ensures r.Failure? ==> r.error == Unauthorized
    ensures r.Success? ==>
              var p := payload.value;
              r.value == AccessUser(p.sub.value, p.email, p.roles, p.permissions)
  {
    if payload.None? || !Truthy(payload.value.sub) then Failure(Unauthorized)
    else
      var p := payload.value;
      Success(AccessUser(p.sub.value, p.email, p.roles, p.permissions))
  }

  /** Claims other than the four named ones never influence `request.user`. */
  lemma OtherClaimsAreDropped(p: AccessPayload, extra: map<string, string>)
    ensures Validate(Some(p)) == Validate(Some(p.(otherClaims := extra)))
  {
  }
}

/**
 * The refresh-token passport strategy: its construction-time secret check
 * and the `validate` callback, which also extracts the raw refresh token
 * from the Authorization header.
 */
module JwtRefreshStrategy {
  import opened Results
  import opened JsString
  import JwtStrategy

  /** Verified refresh-token claims. */
  datatype RefreshPayload = RefreshPayload(sub: Option<string>, deviceId: Option<string>)

  /** What `validate` puts on the request as `request.user`. */
  datatype RefreshUser = RefreshUser(userId: string, deviceId: string, refreshToken: string)

  /** The constructor: a missing or empty `JWT_REFRESH_TOKEN_SECRET` stops the application. */
  function NewJwtRefreshStrategy(refreshSecret: Option<string>): (r: Result<JwtStrategy.StrategyOptions>)
    ensures r.Failure? <==> !Truthy(refreshSecret)
    ensures r.Failure? ==> r.error == MissingConfiguration
    ensures r.Success? ==>
              r.value.secretOrKey == refreshSecret.value && !r.value.ignoreExpiration && r.value.passReqToCallback
  {
    if !Truthy(refreshSecret) then Failure(MissingConfiguration)
    else Success(JwtStrategy.StrategyOptions(refreshSecret.value, false, true))
  }

  /**
   * `authorization.replace('Bearer', '').trim()`: the token never has
   * surrounding whitespace, and a header without `Bearer` is only trimmed.
   */
  function StripBearer(authorization: string): (token: string)
    ensures IsTrimmed(token)
    ensures |token| <= |authorization|
    ensures IndexOf(authorization, "Bearer").None? ==> token == Trim(authorization)
  {
    Trim(ReplaceFirst(authorization, "Bearer", ""))
  }

  /**
   * `validate`: an absent or empty Authorization header, or a falsy `sub` or
   * `deviceId`, is Unauthorized; otherwise the claims pass through verbatim
   * and the token is the header with `Bearer` stripped.
   */
  function Validate(authorization: Option<string>, payload: RefreshPayload): (r: Result<RefreshUser>)
    ensures r.Failure? <==> !Truthy(authorization) || !Truthy(payload.sub) || !Truthy(payload.deviceId)
    ensures r.Failure? ==> r.error == Unauthorized
    ensures r.Success? ==>
              && r.value.userId == payload.sub.value
              && r.value.deviceId == payload.deviceId.value
              && r.value.refreshToken == StripBearer(authorization.value)
              && IsTrimmed(r.value.refreshToken)
  {
    if !Truthy(authorization) then Failure(Unauthorized)
    else if !Truthy(payload.sub) || !Truthy(payload.deviceId) then Failure(Unauthorized)
    else Success(RefreshUser(payload.sub.value, payload.deviceId.value, StripBearer(authorization.value)))
  }

  /**
   * The extracted token is the header with its first `Bearer` removed and
   * the result trimmed; a header without `Bearer` is only trimmed.
   */
  lemma StripBearerRemovesFirstOccurrence(authorization: string)
    ensures IndexOf(authorization, "Bearer").None? ==> StripBearer(authorization) == Trim(authorization)
    ensures IndexOf(authorization, "Bearer").Some? ==>
              var i := IndexOf(authorization, "Bearer").value;
              && (forall j :: 0 <= j < i ==> !OccursAt(authorization, "Bearer", j))
              && StripBearer(authorization) == Trim(authorization[..i] + authorization[i + 6..])
  {
    if IndexOf(authorization, "Bearer").Some? {
      var i := IndexOf(authorization, "Bearer").value;
      assert authorization[..i] + "" + authorization[i + |"Bearer"|..] == authorization[..i] + authorization[i + 6..];
    }
  }

  /** The header `"Bearer " + t` yields `t` whenever `t` has no surrounding whitespace. */
  lemma {:induction false} BearerHeaderYieldsToken(t: string)
    requires IsTrimmed(t)
    ensures StripBearer("Bearer " + t) == t
  {
    var h := "Bearer " + t;
    assert OccursAt(h, "Bearer", 0) by {
      assert h[0..6] == "Bearer";
    }
    assert IndexOf(h, "Bearer") == Some(0);
    assert ReplaceFirst(h, "Bearer", "") == " " + t by {
      assert h[..0] + "" + h[6..] == h[6..];
      assert h[6..] == " " + t;
    }
    TrimRemovesPadding(" ", t, "");
    assert " " + t + "" == " " + t;
  }
}
