/**
 * `RolesService`: the role table, the NotFound rule of `findOneRole`, the
 * soft-delete flag flips, and the maintenance of a role's permission list.
 */
module Roles {
  import opened Results
  import opened Entities

  /** `s.filter(keep)` */
  function Filter(s: seq<Permission>, keep: Permission -> bool): (r: seq<Permission>)
    ensures forall x :: x in r <==> x in s && keep(x)
    ensures |r| <= |s|
  {
    if s == [] then []
    else (if keep(s[0]) then [s[0]] else []) + Filter(s[1..], keep)
  }

  /** No two permissions share an id. */
  predicate DistinctIds(ps: seq<Permission>)
  {
    forall i, j :: 0 <= i < j < |ps| ==> ps[i].id != ps[j].id
  }

  /** No id is requested twice. */
  predicate DistinctInts(xs: seq<int>)
  {
    forall i, j :: 0 <= i < j < |xs| ==> xs[i] != xs[j]
  }

  /** `new Set(ps.map(p => p.id))` */
  function Ids(ps: seq<Permission>): set<int>
  {
    set p | p in ps :: p.id
  }

  /** The ids of the active rows of the permission table. */
  function ActiveIds(rows: seq<Permission>): set<int>
  {
    set p | p in rows && p.isActive :: p.id
  }

  /**
   * `findPermissionsByIds`: the active rows whose id is among `ids`. The
   * query fixes no order; the model returns them in the order of `rows`.
   */
  function FindPermissionsByIds(rows: seq<Permission>, ids: seq<int>): (r: seq<Permission>)
    ensures forall p :: p in r <==> p in rows && p.id in ids && p.isActive
    ensures |r| <= |rows|
  {
    Filter(rows, (p: Permission) => p.id in ids && p.isActive)
  }

  /** `permissions.filter(p => !currentPermissionIds.has(p.id))` */
  function NewPermissions(current: seq<Permission>, found: seq<Permission>): seq<Permission>
  {
    Filter(found, (p: Permission) => p.id !in Ids(current))
  }

  /** `[...role.permissions, ...newPermissions]` */
  function AppendNew(current: seq<Permission>, found: seq<Permission>): seq<Permission>
  {
    current + NewPermissions(current, found)
  }

  /** `role.permissions.filter(p => !permissionIds.includes(p.id))` */
  function WithoutIds(current: seq<Permission>, ids: seq<int>): seq<Permission>
  {
    Filter(current, (p: Permission) => p.id !in ids)
  }

  lemma {:induction false} FilterConcat(a: seq<Permission>, b: seq<Permission>, keep: Permission -> bool)
    ensures Filter(a + b, keep) == Filter(a, keep) + Filter(b, keep)
  {
    if a == [] {
      assert a + b == b;
    } else {
      assert (a + b)[1..] == a[1..] + b;
      FilterConcat(a[1..], b, keep);
    }
  }

  lemma {:induction false} FilterRejectingAll(s: seq<Permission>, keep: Permission -> bool)
    requires forall x :: x in s ==> !keep(x)
    ensures Filter(s, keep) == []
  {
    if s != [] {
      FilterRejectingAll(s[1..], keep);
    }
  }

  lemma {:induction false} FilterKeepsDistinctIds(s: seq<Permission>, keep: Permission -> bool)
    requires DistinctIds(s)
    ensures DistinctIds(Filter(s, keep))
  {
    if s != [] {
      FilterKeepsDistinctIds(s[1..], keep);
      var tail := Filter(s[1..], keep);
      forall q | q in tail ensures q.id != s[0].id {
        var k :| 0 <= k < |s[1..]| && s[1..][k] == q;
        assert s[k + 1] == q;
      }
    }
  }

  /** The request ids of the found rows are exactly the requested active ids. */
  lemma FoundIds(rows: seq<Permission>, ids: seq<int>)
    ensures Ids(FindPermissionsByIds(rows, ids)) == (set x | x in ids) * ActiveIds(rows)
  {
    var found := FindPermissionsByIds(rows, ids);
    forall x | x in (set x | x in ids) * ActiveIds(rows) ensures x in Ids(found) {
      var p :| p in rows && p.isActive && p.id == x;
      assert p in found;
    }
  }

  lemma {:induction false} DistinctIdsCardinality(ps: seq<Permission>)
    requires DistinctIds(ps)
    ensures |Ids(ps)| == |ps|
  {
    if ps != [] {
      DistinctIdsCardinality(ps[1..]);
      assert Ids(ps) == {ps[0].id} + Ids(ps[1..]);
      forall q | q in ps[1..] ensures q.id != ps[0].id {
        var k :| 0 <= k < |ps[1..]| && ps[1..][k] == q;
        assert ps[k + 1] == q;
      }
    }
  }

  lemma {:induction false} RequestCardinality(xs: seq<int>)
    ensures |set x | x in xs| <= |xs|
    ensures |set x | x in xs| == |xs| <==> DistinctInts(xs)
  {
    if xs != [] {
      RequestCardinality(xs[1..]);
      var tail := set x | x in xs[1..];
      assert (set x | x in xs) == {xs[0]} + tail;
      if xs[0] in xs[1..] {
        var k :| 0 <= k < |xs[1..]| && xs[1..][k] == xs[0];
        assert xs[0] == xs[k + 1];
        assert !DistinctInts(xs);
      } else {
        assert DistinctInts(xs) <==> DistinctInts(xs[1..]) by {
          if DistinctInts(xs[1..]) {
            forall i, j | 0 <= i < j < |xs| ensures xs[i] != xs[j] {
              if i > 0 {
                assert xs[i] == xs[1..][i - 1] && xs[j] == xs[1..][j - 1];
              } else {
                assert xs[j] in xs[1..];
              }
            }
          }
          if DistinctInts(xs) {
            forall i, j | 0 <= i < j < |xs[1..]| ensures xs[1..][i] != xs[1..][j] {
              assert xs[1..][i] == xs[i + 1] && xs[1..][j] == xs[j + 1];
            }
          }
        }
      }
    }
  }

  lemma SubsetCardinality(a: set<int>, b: set<int>)
    requires a <= b
    ensures |a| <= |b|
    ensures |a| == |b| ==> a == b
  {
    assert b == a + (b - a);
    assert a * (b - a) == {};
  }

  /**
   * The count comparison at the heart of `assignPermissionsToRole` passes
   * exactly when no id is requested twice and every requested id names an
   * active permission: an inactive, unknown or repeated id is a BadRequest.
   */
  lemma {:induction false} CountCheckPasses(rows: seq<Permission>, ids: seq<int>)
    requires DistinctIds(rows)
    ensures |FindPermissionsByIds(rows, ids)| == |ids| <==>
              DistinctInts(ids) && forall x :: x in ids ==> x in ActiveIds(rows)
  {
    var found := FindPermissionsByIds(rows, ids);
    var requested := set x | x in ids;
    FilterKeepsDistinctIds(rows, (p: Permission) => p.id in ids && p.isActive);
    DistinctIdsCardinality(found);
    FoundIds(rows, ids);
    RequestCardinality(ids);
    assert Ids(found) <= requested;
    SubsetCardinality(Ids(found), requested);
    if |found| == |ids| {
      forall x | x in ids ensures x in ActiveIds(rows) {
        assert x in requested;
      }
    }
    if DistinctInts(ids) && forall x :: x in ids ==> x in ActiveIds(rows) {
      assert Ids(found) == requested;
    }
  }

  /**
   * Assignment keeps the old list as a prefix and appends exactly the found
   * permissions whose id the role did not already carry, in found order.
   */
  lemma AssignAppendsOnlyNewIds(current: seq<Permission>, found: seq<Permission>)
    ensures |current| <= |AppendNew(current, found)|
    ensures AppendNew(current, found)[..|current|] == current
    ensures forall p :: p in AppendNew(current, found)[|current|..] <==> p in found && p.id !in Ids(current)
    ensures AppendNew(current, found)[|current|..] == Filter(found, (p: Permission) => p.id !in Ids(current))
  {
    assert AppendNew(current, found)[|current|..] == NewPermissions(current, found);
  }

  /** Assignment introduces no duplicate ids. */
  lemma {:induction false} AssignKeepsDistinctIds(current: seq<Permission>, found: seq<Permission>)
    requires DistinctIds(current) && DistinctIds(found)
    ensures DistinctIds(AppendNew(current, found))
  {
    var added := NewPermissions(current, found);
    FilterKeepsDistinctIds(found, (p: Permission) => p.id !in Ids(current));
    var r := AppendNew(current, found);
    forall i, j | 0 <= i < j < |r| ensures r[i].id != r[j].id {
      if j >= |current| {
        assert r[j] == added[j - |current|];
        assert r[j] in added;
        if i < |current| {
          assert r[i] in current;
        } else {
          assert r[i] == added[i - |current|];
        }
      }
    }
  }

  /** Repeating the same assignment leaves the list unchanged. */
  lemma {:induction false} AssignIdempotent(current: seq<Permission>, found: seq<Permission>)
    ensures AppendNew(AppendNew(current, found), found) == AppendNew(current, found)
  {
    var once := AppendNew(current, found);
    forall p | p in found ensures p.id in Ids(once) {
      if p.id !in Ids(current) {
        assert p in NewPermissions(current, found);
        assert p in once;
      } else {
        var q :| q in current && q.id == p.id;
        assert q in once;
      }
    }
    FilterRejectingAll(found, (p: Permission) => p.id !in Ids(once));
    assert once + [] == once;
  }

  /**
   * Unassignment keeps exactly the entries whose id was not named, never
   * adds one, keeps their relative order, and is idempotent.
   */
  lemma {:induction false} UnassignFilters(current: seq<Permission>, ids: seq<int>)
    ensures forall p :: p in WithoutIds(current, ids) <==> p in current && p.id !in ids
    ensures |WithoutIds(current, ids)| <= |current|
    ensures WithoutIds(WithoutIds(current, ids), ids) == WithoutIds(current, ids)
  {
    var once := WithoutIds(current, ids);
    if once != [] {
      assert once == [once[0]] + once[1..];
    }
    UnassignKeepsAll(once, ids);
  }

  lemma {:induction false} UnassignKeepsAll(s: seq<Permission>, ids: seq<int>)
    requires forall p :: p in s ==> p.id !in ids
    ensures WithoutIds(s, ids) == s
  {
    if s != [] {
      UnassignKeepsAll(s[1..], ids);
      assert s == [s[0]] + s[1..];
    }
  }

  /** Unassignment works entry by entry, so relative order is kept. */
  lemma UnassignKeepsOrder(a: seq<Permission>, b: seq<Permission>, ids: seq<int>)
    ensures WithoutIds(a + b, ids) == WithoutIds(a, ids) + WithoutIds(b, ids)
  {
    FilterConcat(a, b, (p: Permission) => p.id !in ids);
  }

  /** The role table and the permission table it draws from. */
  class RolesService {
    var roles: map<int, Role>
    var permissionRows: seq<Permission>

    /** Keys are role ids, each role's permission relation is loaded and free of repeated ids. */
    ghost predicate Valid()
      reads this
    {
      && (forall id :: id in roles ==>
            roles[id].id == id && roles[id].permissions.Some? && DistinctIds(roles[id].permissions.value))
      && DistinctIds(permissionRows)
    }

    constructor (roles: map<int, Role>, permissionRows: seq<Permission>)
      requires forall id :: id in roles ==>
                 roles[id].id == id && roles[id].permissions.Some? && DistinctIds(roles[id].permissions.value)
      requires DistinctIds(permissionRows)
      ensures Valid() && this.roles == roles && this.permissionRows == permissionRows
    {
      this.roles := roles;
      this.permissionRows := permissionRows;
    }

    /** `findOneRole`: NotFound when no role has the id. */
    function FindOneRole(id: int): (r: Result<Role>)
      reads this
      ensures r.Failure? <==> id !in roles
      ensures r.Failure? ==> r.error == NotFound
      ensures r.Success? ==> r.value == roles[id]
    {
      if id in roles then Success(roles[id]) else Failure(NotFound)
    }

    /** `removeRole` and `enableRole`: only `isActive` of that one role changes. */
    method SetActive(id: int, active: bool) returns (r: Result<()>)
      requires Valid()
      modifies this`roles
      ensures Valid()
      ensures id !in old(roles) ==> r == Failure(NotFound) && roles == old(roles)
      ensures id in old(roles) ==> r == Success(()) && roles == old(roles)[id := old(roles)[id].(isActive := active)]
    {
      var found := FindOneRole(id);
      if found.Failure? {
        r := Failure(found.error);
        return;
      }
      roles := roles[id := found.value.(isActive := active)];
      r := Success(());
    }

    /** `removeRole`: a soft delete. */
    method RemoveRole(id: int) returns (r: Result<()>)
      requires Valid()
      modifies this`roles
      ensures Valid()
      ensures id !in old(roles) ==> r == Failure(NotFound) && roles == old(roles)
      ensures id in old(roles) ==> r == Success(()) && roles == old(roles)[id := old(roles)[id].(isActive := false)]
    {
      r := SetActive(id, false);
    }

    /** `enableRole`: undoes a soft delete. */
    method EnableRole(id: int) returns (r: Result<()>)
      requires Valid()
      modifies this`roles
      ensures Valid()
      ensures id !in old(roles) ==> r == Failure(NotFound) && roles == old(roles)
      ensures id in old(roles) ==> r == Success(()) && roles == old(roles)[id := old(roles)[id].(isActive := true)]
    {
      r := SetActive(id, true);
    }

    /**
     * `assignPermissionsToRole`: NotFound for an unknown role; BadRequest,
     * with nothing saved, when the active permissions found do not match
     * the ids requested one for one; otherwise the new ones are appended.
     */
    method AssignPermissionsToRole(roleId: int, permissionIds: seq<int>) returns (r: Result<Role>)
      requires Valid()
      modifies this`roles
      ensures Valid()
      ensures roleId !in old(roles) ==> r == Failure(NotFound) && roles == old(roles)
      ensures roleId in old(roles) && |FindPermissionsByIds(permissionRows, permissionIds)| != |permissionIds| ==>
                r == Failure(BadRequest) && roles == old(roles)
      ensures roleId in old(roles) && |FindPermissionsByIds(permissionRows, permissionIds)| == |permissionIds| ==>
                var role := old(roles)[roleId];
                var found := FindPermissionsByIds(permissionRows, permissionIds);
                var updated := role.(permissions := Some(AppendNew(role.permissions.value, found)));
                r == Success(updated) && roles == old(roles)[roleId := updated]
    {
      var found := FindOneRole(roleId);
      if found.Failure? {
        r := Failure(found.error);
        return;
      }
      var role := found.value;
      var permissions := FindPermissionsByIds(permissionRows, permissionIds);
      if |permissions| != |permissionIds| {
        r := Failure(BadRequest);
        return;
      }
      FilterKeepsDistinctIds(permissionRows, (p: Permission) => p.id in permissionIds && p.isActive);
      AssignKeepsDistinctIds(role.permissions.value, permissions);
      role := role.(permissions := Some(AppendNew(role.permissions.value, permissions)));
      roles := roles[roleId := role];
      r := Success(role);
    }

    /** `unassignPermissionsFromRole`: NotFound for an unknown role, otherwise a filter. */
    method UnassignPermissionsFromRole(roleId: int, permissionIds: seq<int>) returns (r: Result<Role>)
      requires Valid()
      modifies this`roles
      ensures Valid()
      ensures roleId !in old(roles) ==> r == Failure(NotFound) && roles == old(roles)
      ensures roleId in old(roles) ==>
                var role := old(roles)[roleId];
                var updated := role.(permissions := Some(WithoutIds(role.permissions.value, permissionIds)));
                r == Success(updated) && roles == old(roles)[roleId := updated]
    {
      var found := FindOneRole(roleId);
      if found.Failure? {
        r := Failure(found.error);
        return;
      }
      var role := found.value;
      FilterKeepsDistinctIds(role.permissions.value, (p: Permission) => p.id !in permissionIds);
      role := role.(permissions := Some(WithoutIds(role.permissions.value, permissionIds)));
      roles := roles[roleId := role];
      r := Success(role);
    }
  }
}
