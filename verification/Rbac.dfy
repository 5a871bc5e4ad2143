/** Permissions through roles: the four-table join that the repository runs, with its duplicates. */
module Rbac {
  type Id = nat

  datatype Permission = Permission(id: Id, name: string)
  datatype RolePermission = RolePermission(role: Id, permission: Id)
  datatype Role = Role(id: Id)
  datatype UserRole = UserRole(user: Id, role: Id)

  datatype Grants = Grants(
    permissions: seq<Permission>,
    rolePermissions: seq<RolePermission>,
    roles: seq<Role>,
    userRoles: seq<UserRole>)

  function FlatMap<A, B>(xs: seq<A>, f: A -> seq<B>): seq<B> {
    if xs == [] then [] else f(xs[0]) + FlatMap(xs[1..], f)
  }

  /** The joined rows, projected on the permission name. */
  function Joined(g: Grants, user: Id): seq<string> {
    FlatMap(g.permissions, (p: Permission) =>
      FlatMap(g.rolePermissions, (rp: RolePermission) => if rp.permission != p.id then [] else
        FlatMap(g.roles, (r: Role) => if r.id != rp.role then [] else
          FlatMap(g.userRoles, (ur: UserRole) => if ur.role != r.id || ur.user != user then [] else [p.name]))))
  }

  /** `set(result)` */
  function UserPermissions(g: Grants, user: Id): set<string> {
    set name | name in Joined(g, user)
  }

  predicate UserHasPermission(g: Grants, user: Id, name: string) {
    name in UserPermissions(g, user)
  }

  lemma {:induction false} InFlatMap<A, B>(xs: seq<A>, f: A -> seq<B>, y: B)
    ensures y in FlatMap(xs, f) <==> exists x :: x in xs && y in f(x)
  {
    if xs != [] {
      InFlatMap(xs[1..], f, y);
      assert xs == [xs[0]] + xs[1..];
    }
  }

  ghost predicate HasRole(g: Grants, user: Id, role: Id) {
    UserRole(user, role) in g.userRoles && Role(role) in g.roles
  }

  ghost predicate RoleGrants(g: Grants, role: Id, name: string) {
    exists p :: p in g.permissions && p.name == name && RolePermission(role, p.id) in g.rolePermissions
  }

  lemma JoinOverUserRoles(g: Grants, user: Id, role: Id, name: string, y: string)
    ensures y in FlatMap(g.userRoles, (ur: UserRole) => if ur.role != role || ur.user != user then [] else [name])
            <==> y == name && UserRole(user, role) in g.userRoles
  {
    InFlatMap(g.userRoles, (ur: UserRole) => if ur.role != role || ur.user != user then [] else [name], y);
  }

  lemma JoinOverRoles(g: Grants, user: Id, role: Id, name: string, y: string)
    ensures y in FlatMap(g.roles, (r: Role) => if r.id != role then [] else
                   FlatMap(g.userRoles, (ur: UserRole) => if ur.role != r.id || ur.user != user then [] else [name]))
            <==> y == name && HasRole(g, user, role)
  {
    InFlatMap(g.roles, (r: Role) => if r.id != role then [] else
      FlatMap(g.userRoles, (ur: UserRole) => if ur.role != r.id || ur.user != user then [] else [name]), y);
    JoinOverUserRoles(g, user, role, name, y);
  }

  lemma JoinOverGrants(g: Grants, user: Id, p: Permission, y: string)
    ensures y in FlatMap(g.rolePermissions, (rp: RolePermission) => if rp.permission != p.id then [] else
              FlatMap(g.roles, (r: Role) => if r.id != rp.role then [] else
                FlatMap(g.userRoles, (ur: UserRole) => if ur.role != r.id || ur.user != user then [] else [p.name])))
            <==> y == p.name && exists role :: HasRole(g, user, role) && RolePermission(role, p.id) in g.rolePermissions
  {
    var f := (rp: RolePermission) => if rp.permission != p.id then [] else
      FlatMap(g.roles, (r: Role) => if r.id != rp.role then [] else
        FlatMap(g.userRoles, (ur: UserRole) => if ur.role != r.id || ur.user != user then [] else [p.name]));
    InFlatMap(g.rolePermissions, f, y);
    forall rp | rp in g.rolePermissions
      ensures y in f(rp) <==> rp.permission == p.id && y == p.name && HasRole(g, user, rp.role)
    {
      JoinOverRoles(g, user, rp.role, p.name, y);
    }
  }

  /** The join finds exactly the permissions that some role of the user grants. */
  lemma JoinIsReachability(g: Grants, user: Id, name: string)
    ensures UserHasPermission(g, user, name) <==>
            exists role :: HasRole(g, user, role) && RoleGrants(g, role, name)
    ensures UserHasPermission(g, user, name) <==>
            exists role, id :: UserRole(user, role) in g.userRoles && Role(role) in g.roles
              && RolePermission(role, id) in g.rolePermissions && Permission(id, name) in g.permissions
  {
    var f := (p: Permission) =>
      FlatMap(g.rolePermissions, (rp: RolePermission) => if rp.permission != p.id then [] else
        FlatMap(g.roles, (r: Role) => if r.id != rp.role then [] else
          FlatMap(g.userRoles, (ur: UserRole) => if ur.role != r.id || ur.user != user then [] else [p.name])));
    assert Joined(g, user) == FlatMap(g.permissions, f);
    InFlatMap(g.permissions, f, name);
    forall p | p in g.permissions
      ensures name in f(p) <==>
              name == p.name && exists role :: HasRole(g, user, role) && RolePermission(role, p.id) in g.rolePermissions
    {
      JoinOverGrants(g, user, p, name);
    }
  }

  ghost predicate Extends(g: Grants, h: Grants) {
    && (forall x | x in g.permissions :: x in h.permissions)
    && (forall x | x in g.rolePermissions :: x in h.rolePermissions)
    && (forall x | x in g.roles :: x in h.roles)
    && (forall x | x in g.userRoles :: x in h.userRoles)
  }

  /** More rows never take a permission away. */
  lemma GrantsAreMonotone(g: Grants, h: Grants, user: Id)
    requires Extends(g, h)
    ensures UserPermissions(g, user) <= UserPermissions(h, user)
  {
    forall name | name in UserPermissions(g, user) ensures name in UserPermissions(h, user) {
      JoinIsReachability(g, user, name);
      JoinIsReachability(h, user, name);
      var role :| HasRole(g, user, role) && RoleGrants(g, role, name);
      assert HasRole(h, user, role) && RoleGrants(h, role, name);
    }
  }

  /** Removing the grants of one permission to one role changes nothing for users without that role. */
  lemma RevokingAGrantIsLocal(g: Grants, h: Grants, role: Id, permission: Id, user: Id)
    requires h.permissions == g.permissions && h.roles == g.roles && h.userRoles == g.userRoles
    requires forall x :: x in h.rolePermissions <==> x in g.rolePermissions && x != RolePermission(role, permission)
    requires !HasRole(g, user, role)
    ensures UserPermissions(h, user) == UserPermissions(g, user)
  {
    forall name ensures name in UserPermissions(h, user) <==> name in UserPermissions(g, user) {
      JoinIsReachability(g, user, name);
      JoinIsReachability(h, user, name);
      forall r | HasRole(g, user, r) ensures RoleGrants(g, r, name) <==> RoleGrants(h, r, name) {
      }
    }
  }
}
