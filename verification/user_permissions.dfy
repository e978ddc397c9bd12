/**
 * The `permissions` getter of the User entity: the names of the permissions
 * of every role of the user, flattened in role order and deduplicated by
 * insertion into a `Set`.
 */
module UserPermissions {
  import opened Results
  import opened Entities

  /** No name occurs twice. */
  predicate NoDuplicates(s: seq<string>)
  {
    forall i, j :: 0 <= i < j < |s| ==> s[i] != s[j]
  }

  /** The position of the first occurrence of `x` in `s`. */
  function FirstIndex(s: seq<string>, x: string): (k: nat)
    requires x in s
    ensures k < |s| && s[k] == x && x !in s[..k]
  {
    if s[0] == x then 0
    else
      var k := FirstIndex(s[1..], x);
      assert s[1..][..k] == s[1..k + 1];
      assert s[..k + 1] == [s[0]] + s[1..k + 1];
      k + 1
  }

  /** The names one role contributes: none when its permissions are absent. */
  function PermissionNames(role: Role): seq<string>
  {
    match role.permissions
    case None => []
    case Some(ps) => seq(|ps|, i requires 0 <= i < |ps| => ps[i].name)
  }

  /** `roles.flatMap(role => role.permissions ? role.permissions.map(p => p.name) : [])` */
  function FlatNames(roles: seq<Role>): seq<string>
  {
    if roles == [] then [] else PermissionNames(roles[0]) + FlatNames(roles[1..])
  }

  /** The number of permission entries over all roles (an absent list has none). */
  function EntryCount(roles: seq<Role>): nat
  {
    if roles == [] then 0
    else (match roles[0].permissions case None => 0 case Some(ps) => |ps|) + EntryCount(roles[1..])
  }

  /** Some role in `roles` holds a permission named `x`. */
  predicate Grants(roles: seq<Role>, x: string)
  {
    exists i :: 0 <= i < |roles| && roles[i].permissions.Some? && GrantsByRole(roles[i], x)
  }

  predicate GrantsByRole(role: Role, x: string)
    requires role.permissions.Some?
  {
    exists p :: p in role.permissions.value && p.name == x
  }

  /**
   * `[...new Set(s)]`: a Set keeps the order in which values were first
   * inserted, so the last element is kept exactly when it was not seen before.
   */
  function Dedupe(s: seq<string>): (r: seq<string>)
    ensures NoDuplicates(r)
    ensures forall x :: x in r <==> x in s
    ensures |r| <= |s|
  {
    if s == [] then []
    else
      var d := Dedupe(s[..|s| - 1]);
      if s[|s| - 1] in d then d else d + [s[|s| - 1]]
  }

  /** Every name in the flattening is granted by some role, and conversely. */
  lemma FlatNamesGranted(roles: seq<Role>)
    ensures forall x :: x in FlatNames(roles) <==> Grants(roles, x)
  {
    forall x ensures x in FlatNames(roles) <==> Grants(roles, x) {
      FlatNamesMembership(roles, x);
    }
  }

  /**
   * The getter itself, on the (possibly absent) roles relation: nothing when
   * the relation is absent, otherwise each granted name exactly once.
   */
  function EffectivePermissions(roles: Option<seq<Role>>): (r: seq<string>)
    ensures roles.None? ==> r == []
    ensures roles.Some? ==> NoDuplicates(r) && forall x :: x in r <==> Grants(roles.value, x)
  {
    match roles
    case None => []
    case Some(rs) => FlatNamesGranted(rs); Dedupe(FlatNames(rs))
  }

  /** `user.permissions` */
  function Permissions(u: User): seq<string>
  {
    EffectivePermissions(u.roles)
  }

  lemma {:induction false} PermissionNamesMembership(role: Role, x: string)
    ensures x in PermissionNames(role) <==> role.permissions.Some? && GrantsByRole(role, x)
  {
    match role.permissions
    case None =>
    case Some(ps) =>
      var names := PermissionNames(role);
      if x in names {
        var i :| 0 <= i < |names| && names[i] == x;
        assert ps[i] in ps && ps[i].name == x;
      }
      if GrantsByRole(role, x) {
        var p :| p in ps && p.name == x;
        var i :| 0 <= i < |ps| && ps[i] == p;
        assert names[i] == x;
      }
  }

  lemma {:induction false} FlatNamesMembership(roles: seq<Role>, x: string)
    ensures x in FlatNames(roles) <==> Grants(roles, x)
  {
    if roles != [] {
      FlatNamesMembership(roles[1..], x);
      PermissionNamesMembership(roles[0], x);
      if Grants(roles[1..], x) {
        var i :| 0 <= i < |roles[1..]| && roles[1..][i].permissions.Some? && GrantsByRole(roles[1..][i], x);
        assert roles[i + 1] == roles[1..][i];
      }
      if Grants(roles, x) {
        var i :| 0 <= i < |roles| && roles[i].permissions.Some? && GrantsByRole(roles[i], x);
        if i > 0 {
          assert roles[1..][i - 1] == roles[i];
        }
      }
    }
  }

  lemma {:induction false} FlatNamesLength(roles: seq<Role>)
    ensures |FlatNames(roles)| == EntryCount(roles)
  {
    if roles != [] {
      FlatNamesLength(roles[1..]);
    }
  }

  lemma {:induction false} FlatNamesConcat(a: seq<Role>, b: seq<Role>)
    ensures FlatNames(a + b) == FlatNames(a) + FlatNames(b)
  {
    if a == [] {
      assert a + b == b;
    } else {
      assert (a + b)[1..] == a[1..] + b;
      FlatNamesConcat(a[1..], b);
    }
  }

  /** If `roles` is absent the getter yields the empty list. */
  lemma AbsentRolesGrantNothing(u: User)
    requires u.roles.None?
    ensures Permissions(u) == []
  {
  }

  /**
   * The getter's result has no duplicates, contains exactly the names some
   * role grants, and is no longer than the number of permission entries.
   */
  lemma {:induction false} PermissionsAreGrantedNames(u: User)
    requires u.roles.Some?
    ensures NoDuplicates(Permissions(u))
    ensures forall x :: x in Permissions(u) <==> Grants(u.roles.value, x)
    ensures |Permissions(u)| <= EntryCount(u.roles.value)
  {
    forall x ensures x in FlatNames(u.roles.value) <==> Grants(u.roles.value, x) {
      FlatNamesMembership(u.roles.value, x);
    }
    FlatNamesLength(u.roles.value);
  }

  /** A role without a loaded permissions list contributes no names. */
  lemma {:induction false} RoleWithoutPermissionsContributesNothing(before: seq<Role>, role: Role, after: seq<Role>)
    requires role.permissions.None?
    ensures EffectivePermissions(Some(before + [role] + after)) == EffectivePermissions(Some(before + after))
  {
    var rest := [role] + after;
    assert before + [role] + after == before + rest;
    assert rest[1..] == after;
    assert FlatNames(rest) == FlatNames(after);
    FlatNamesConcat(before, rest);
    FlatNamesConcat(before, after);
  }

  /** Removing the last element: every earlier first occurrence stays put. */
  lemma {:induction false} FirstIndexOfPrefix(s: seq<string>, x: string)
    requires s != [] && x in s[..|s| - 1]
    ensures FirstIndex(s, x) == FirstIndex(s[..|s| - 1], x)
  {
    var p := s[..|s| - 1];
    var k := FirstIndex(p, x);
    assert s[..k] == p[..k];
  }

  /** Deduplicated names appear in the order of their first occurrence. */
  lemma {:induction false} DedupeKeepsFirstOccurrenceOrder(s: seq<string>)
    ensures forall i, j :: 0 <= i < j < |Dedupe(s)| ==> FirstIndex(s, Dedupe(s)[i]) < FirstIndex(s, Dedupe(s)[j])
  {
    if s != [] {
      var p := s[..|s| - 1];
      var last := s[|s| - 1];
      var d := Dedupe(p);
      DedupeKeepsFirstOccurrenceOrder(p);
      forall x | x in d ensures FirstIndex(s, x) == FirstIndex(p, x) < |p| {
        FirstIndexOfPrefix(s, x);
      }
      if last !in d {
        assert last !in p;
        assert s[..|p|] == p;
        assert FirstIndex(s, last) == |p|;
      }
    }
  }

  /**
   * The getter lists each granted name once, walking the roles in order and
   * each role's permissions in order, in order of first occurrence.
   */
  lemma PermissionsInFirstOccurrenceOrder(u: User)
    requires u.roles.Some?
    ensures var names := FlatNames(u.roles.value);
            forall i, j :: 0 <= i < j < |Permissions(u)| ==>
              FirstIndex(names, Permissions(u)[i]) < FirstIndex(names, Permissions(u)[j])
  {
    DedupeKeepsFirstOccurrenceOrder(FlatNames(u.roles.value));
  }
}
