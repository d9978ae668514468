/** RoleService: roles by name, and the authority list of a user, built
    from the permission names of the user's role followed by the role
    itself. */
module Roles {
  import opened Wrappers
  import opened Errors
  import opened Users

  /** The name of the role every new user receives. */
  const UserRole: RoleName := "USER"

  /** The prefix Spring Security expects on role authorities. */
  const RolePrefix := "ROLE_"

  datatype Permission = Permission(name: string)

  /** A role with its permissions, in the order the role lists them. */
  datatype Role = Role(name: RoleName, permissions: seq<Permission>)

  /** The role with the given name, or RoleNotFound. */
  function FindRole(rs: seq<Role>, name: RoleName): (r: Result<Role, ServiceError>)
    ensures r.Success? ==> r.value in rs && r.value.name == name
    ensures r.Failure? <==> forall i | 0 <= i < |rs| :: rs[i].name != name
    ensures r.Failure? ==> r.error == RoleNotFound
  {
    if rs == [] then Failure(RoleNotFound)
    else if rs[0].name == name then Success(rs[0])
    else FindRole(rs[1..], name)
  }

  /** The role joined to the user with the given id: found only when that
      user exists, has a role, and the role is stored. */
  function RoleOfUser(us: seq<User>, rs: seq<Role>, userId: UserId): (r: Result<Role, ServiceError>)
    ensures r.Success? <==> FindUserById(us, userId).Some? && FindUserById(us, userId).value.role.Some? &&
                            FindRole(rs, FindUserById(us, userId).value.role.value).Success?
    ensures r.Success? ==> r.value in rs && Some(r.value.name) == FindUserById(us, userId).value.role
    ensures r.Failure? ==> r.error == RoleNotFound
  {
    match FindUserById(us, userId)
    case None => Failure(RoleNotFound)
    case Some(u) =>
      match u.role
      case None => Failure(RoleNotFound)
      case Some(name) => FindRole(rs, name)
  }

  /** The names of the permissions, in order. */
  function PermissionNames(ps: seq<Permission>): seq<string> {
    if ps == [] then [] else PermissionNames(ps[..|ps| - 1]) + [ps[|ps| - 1].name]
  }

  /** The authorities of a role: its permission names, then the prefixed
      role name. */
  function Authorities(role: Role): seq<string> {
    PermissionNames(role.permissions) + [RolePrefix + role.name]
  }

  /** One authority per permission, in the role's order, and the role
      itself last. */
  lemma {:induction false} AuthoritiesShape(role: Role)
    ensures |Authorities(role)| == |role.permissions| + 1
    ensures forall i | 0 <= i < |role.permissions| :: Authorities(role)[i] == role.permissions[i].name
    ensures Authorities(role)[|role.permissions|] == RolePrefix + role.name
  {
    PermissionNamesShape(role.permissions);
  }

  lemma {:induction false} PermissionNamesShape(ps: seq<Permission>)
    ensures |PermissionNames(ps)| == |ps|
    ensures forall i | 0 <= i < |ps| :: PermissionNames(ps)[i] == ps[i].name
  {
    if ps != [] {
      PermissionNamesShape(ps[..|ps| - 1]);
    }
  }

  class RoleStore {
    var roles: seq<Role>

    /** The users table, whose role column the user-to-role join reads. */
    const userStore: UserStore

    constructor (userStore: UserStore, roles: seq<Role>)
      ensures this.userStore == userStore && this.roles == roles
    {
      this.userStore := userStore;
      this.roles := roles;
    }

    /** RoleService.getRole. */
    function GetRole(name: RoleName): (r: Result<Role, ServiceError>)
      reads this
      ensures r.Success? ==> r.value in roles && r.value.name == name
      ensures r.Failure? <==> forall i | 0 <= i < |roles| :: roles[i].name != name
      ensures r.Failure? ==> r.error == RoleNotFound
    {
      FindRole(roles, name)
    }

    /** RoleService.getAuthorities: the permission names of the user's role,
        in order, then "ROLE_" and the role's name. */
    method GetAuthorities(userId: UserId) returns (r: Result<seq<string>, ServiceError>)
      ensures r == match RoleOfUser(userStore.users, roles, userId)
                   case Failure(e) => Failure(e)
                   case Success(role) => Success(Authorities(role))
    {
      var found := RoleOfUser(userStore.users, roles, userId);
      if found.Failure? {
        return Failure(found.error);
      }
      var role := found.value;
      var authorities: seq<string> := [];
      for i := 0 to |role.permissions|
        invariant authorities == PermissionNames(role.permissions[..i])
      {
        assert role.permissions[..i + 1][..i] == role.permissions[..i];
        authorities := authorities + [role.permissions[i].name];
      }
      assert role.permissions[..|role.permissions|] == role.permissions;
      authorities := authorities + [RolePrefix + role.name];
      r := Success(authorities);
    }
  }
}
