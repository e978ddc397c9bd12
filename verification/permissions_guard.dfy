/**
 * `PermissionsGuard.canActivate`: a route guarded by required permission
 * names admits a request only when its user holds ALL of them.
 */
module PermissionsGuard {
  import opened Results
  import JwtStrategy

  /** `list.includes(x)` */
  function Includes(list: seq<string>, x: string): (b: bool)
    ensures b <==> x in list
  {
    if list == [] then false
    else list[0] == x || Includes(list[1..], x)
  }

  /** `required.every(permission => granted.includes(permission))` */
  function Every(required: seq<string>, granted: seq<string>): (b: bool)
    ensures b <==> forall i :: 0 <= i < |required| ==> required[i] in granted
  {
    if required == [] then true
    else Includes(granted, required[0]) && Every(required[1..], granted)
  }

  /**
   * `required` is the route's metadata (absent when the route declares none);
   * `user` is `request.user` as the access strategy left it.
   */
  function CanActivate(required: Option<seq<string>>, user: Option<JwtStrategy.AccessUser>): (allowed: bool)
    ensures required.None? ==> allowed
    ensures required.Some? && (user.None? || user.value.permissions.None?) ==> !allowed
    ensures required.Some? && user.Some? && user.value.permissions.Some? ==>
              (allowed <==> forall p :: p in required.value ==> p in user.value.permissions.value)
  {
    if required.None? then true
    else if user.None? || user.value.permissions.None? then false
    else Every(required.value, user.value.permissions.value)
  }

  /** The names of a list, forgetting order and repetition. */
  function NameSet(list: seq<string>): set<string>
  {
    set p | p in list
  }

  /** An empty required list admits any user who carries a permissions list. */
  lemma EmptyRequirementAdmitsAnyHolder(user: JwtStrategy.AccessUser)
    requires user.permissions.Some?
    ensures CanActivate(Some([]), Some(user))
  {
  }

  /** Declared metadata, even an empty list, denies a request with no permissions claim. */
  lemma MissingClaimIsDenied(required: seq<string>, user: Option<JwtStrategy.AccessUser>)
    requires user.None? || user.value.permissions.None?
    ensures !CanActivate(Some(required), user)
  {
  }

  /** Granting more names never turns an allow into a deny. */
  lemma MonotoneInGranted(required: seq<string>, user: JwtStrategy.AccessUser, more: JwtStrategy.AccessUser)
    requires user.permissions.Some? && more.permissions.Some?
    requires NameSet(user.permissions.value) <= NameSet(more.permissions.value)
    ensures CanActivate(Some(required), Some(user)) ==> CanActivate(Some(required), Some(more))
  {
    if CanActivate(Some(required), Some(user)) {
      forall p | p in required ensures p in more.permissions.value {
        assert p in NameSet(user.permissions.value);
      }
    }
  }

  /** Requiring more names never turns a deny into an allow. */
  lemma AntitoneInRequired(required: seq<string>, more: seq<string>, user: JwtStrategy.AccessUser)
    requires user.permissions.Some?
    requires NameSet(required) <= NameSet(more)
    ensures !CanActivate(Some(required), Some(user)) ==> !CanActivate(Some(more), Some(user))
  {
    if CanActivate(Some(more), Some(user)) {
      forall p | p in required ensures p in user.permissions.value {
        assert p in NameSet(more);
      }
    }
  }

  /**
   * Only the sets of names matter: order and repetition in either list do
   * not, and neither do the user's other claims.
   */
  lemma OnlySetsMatter(required: seq<string>, required': seq<string>, user: JwtStrategy.AccessUser, user': JwtStrategy.AccessUser)
    requires user.permissions.Some? && user'.permissions.Some?
    requires NameSet(required) == NameSet(required')
    requires NameSet(user.permissions.value) == NameSet(user'.permissions.value)
    ensures CanActivate(Some(required), Some(user)) == CanActivate(Some(required'), Some(user'))
  {
    MonotoneInGranted(required, user, user');
    MonotoneInGranted(required', user', user);
    AntitoneInRequired(required', required, user');
    AntitoneInRequired(required, required', user);
  }
}
