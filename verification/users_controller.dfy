/**
 * `UsersController.toUserResponse`: the projection of a user row sent to
 * clients. It drops the password, and the `isActive` flag of every role and
 * of every permission within a role.
 */
module UsersController {
  import opened Results
  import opened Entities

  datatype PermissionResponse = PermissionResponse(id: int, name: string)

  datatype RoleResponse = RoleResponse(id: int, name: string, permissions: Option<seq<PermissionResponse>>)

  datatype UserResponse = UserResponse(
    id: string,
    username: string,
    email: string,
    firstName: string,
    lastName: string,
    createdAt: int,
    isActive: bool,
    roles: Option<seq<RoleResponse>>)

  /** `const { isActive, ...permissionResult } = permission` */
  function CleanPermission(p: Permission): PermissionResponse
  {
    PermissionResponse(p.id, p.name)
  }

  /** A role without `isActive`; a role with no permissions key keeps none. */
  function CleanRole(role: Role): RoleResponse
  {
    match role.permissions
    case None => RoleResponse(role.id, role.name, None)
    case Some(ps) => RoleResponse(role.id, role.name, Some(seq(|ps|, i requires 0 <= i < |ps| => CleanPermission(ps[i]))))
  }

  /** `toUserResponse`: the user's own fields, except the password, pass through unchanged. */
  function ToUserResponse(u: User): (r: UserResponse)
    ensures && r.id == u.id && r.username == u.username && r.email == u.email
            && r.firstName == u.firstName && r.lastName == u.lastName
            && r.createdAt == u.createdAt && r.isActive == u.isActive
    ensures r.roles.None? <==> u.roles.None?
    ensures r.roles.Some? ==> |r.roles.value| == |u.roles.value|
  {
    var roles := match u.roles
      case None => None
      case Some(rs) => Some(seq(|rs|, i requires 0 <= i < |rs| => CleanRole(rs[i])));
    UserResponse(u.id, u.username, u.email, u.firstName, u.lastName, u.createdAt, u.isActive, roles)
  }

  /** Two permissions agree on every field the response keeps. */
  predicate SamePublicPermission(p: Permission, q: Permission)
  {
    p.id == q.id && p.name == q.name
  }

  /** Two roles agree on every field the response keeps, permission by permission. */
  predicate SamePublicRole(a: Role, b: Role)
  {
    && a.id == b.id && a.name == b.name
    && a.permissions.None? == b.permissions.None?
    && (a.permissions.Some? ==>
          && |a.permissions.value| == |b.permissions.value|
          && forall k :: 0 <= k < |a.permissions.value| ==>
               SamePublicPermission(a.permissions.value[k], b.permissions.value[k]))
  }

  /**
   * Two users agree on everything except their passwords and the `isActive`
   * flags of their roles and permissions.
   */
  predicate SamePublicView(u: User, v: User)
  {
    && u.id == v.id && u.username == v.username && u.email == v.email
    && u.firstName == v.firstName && u.lastName == v.lastName
    && u.createdAt == v.createdAt && u.isActive == v.isActive
    && u.roles.None? == v.roles.None?
    && (u.roles.Some? ==>
          && |u.roles.value| == |v.roles.value|
          && forall k :: 0 <= k < |u.roles.value| ==> SamePublicRole(u.roles.value[k], v.roles.value[k]))
  }

  lemma CleanRoleExact(a: Role, b: Role)
    ensures CleanRole(a) == CleanRole(b) <==> SamePublicRole(a, b)
  {
    if a.permissions.Some? && b.permissions.Some? {
      var pa, pb := a.permissions.value, b.permissions.value;
      var ca := seq(|pa|, i requires 0 <= i < |pa| => CleanPermission(pa[i]));
      var cb := seq(|pb|, i requires 0 <= i < |pb| => CleanPermission(pb[i]));
      if CleanRole(a) == CleanRole(b) {
        assert ca == cb;
        forall k | 0 <= k < |pa| ensures SamePublicPermission(pa[k], pb[k]) {
          assert ca[k] == cb[k];
        }
      }
      if SamePublicRole(a, b) {
        assert ca == cb;
      }
    }
  }

  /**
   * The response is exactly the public view of the user: two users get the
   * same response if and only if they differ at most in their password and
   * in the `isActive` flags of roles and permissions. In particular the
   * password hash never influences, so never leaks into, the response.
   */
  lemma {:induction false} ResponseIsExactlyThePublicView(u: User, v: User)
    ensures ToUserResponse(u) == ToUserResponse(v) <==> SamePublicView(u, v)
  {
    if u.roles.Some? && v.roles.Some? {
      var ru, rv := u.roles.value, v.roles.value;
      var cu := seq(|ru|, i requires 0 <= i < |ru| => CleanRole(ru[i]));
      var cv := seq(|rv|, i requires 0 <= i < |rv| => CleanRole(rv[i]));
      assert ToUserResponse(u).roles == Some(cu);
      assert ToUserResponse(v).roles == Some(cv);
      if cu == cv {
        forall k | 0 <= k < |ru| ensures SamePublicRole(ru[k], rv[k]) {
          assert cu[k] == cv[k];
          CleanRoleExact(ru[k], rv[k]);
        }
      }
      if SamePublicView(u, v) {
        forall k | 0 <= k < |ru| ensures cu[k] == cv[k] {
          CleanRoleExact(ru[k], rv[k]);
        }
        assert cu == cv;
      }
    }
  }

  /**
   * Roles and each role's permissions keep their order and count; every
   * kept field is copied unchanged.
   */
  lemma ResponseKeepsOrderAndFields(u: User, k: nat, j: nat)
    requires u.roles.Some? && k < |u.roles.value|
    ensures var role := u.roles.value[k];
            var out := ToUserResponse(u).roles.value[k];
            && out.id == role.id && out.name == role.name
            && (out.permissions.None? <==> role.permissions.None?)
            && (role.permissions.Some? ==>
                  && |out.permissions.value| == |role.permissions.value|
                  && (j < |role.permissions.value| ==>
                        out.permissions.value[j] == PermissionResponse(role.permissions.value[j].id, role.permissions.value[j].name)))
  {
  }
}
