/** Start-up seeding: the roles USER and ADMIN into an empty role table, then
    the accounts "user" and "admin" into an empty user table. The two steps
    are not one transaction: a failure in the second keeps what the first
    step, and the second step so far, have stored. */
module DataInitializer {
  import opened Entities
  import opened UserRepository

  const UserRoleName: string := "USER"
  const AdminRoleName: string := "ADMIN"

  /** How `run` ends: normally, or with the exception for a role that is not
      in the role table. */
  datatype InitResult = Done | RoleMissing(name: string)

  /** `initializeRoles`: seeds only an empty role table. */
  function SeededRoles(roles: seq<Role>): seq<Role>
  {
    if |roles| == 0 then [Role(1, UserRoleName), Role(2, AdminRoleName)] else roles
  }

  /** The account "user" with the role found for USER, stored as row `id`. */
  function NormalUser(id: UserId, userRole: Role, encode: string -> string): User
  {
    User(id, "user", "user@taskmanager.com", encode("password123"), {userRole}, true)
  }

  /** The account "admin" with the role found for ADMIN, stored as row `id`. */
  function AdminUser(id: UserId, adminRole: Role, encode: string -> string): User
  {
    User(id, "admin", "admin@taskmanager.com", encode("admin123"), {adminRole}, true)
  }

  /** The result of `initializeUsers` and the user table after it. */
  datatype Seeding = Seeding(result: InitResult, users: seq<User>)

  /** `initializeUsers`: seeds only an empty user table; "user" is saved
      before the ADMIN role is looked up. */
  function SeededUsers(users: seq<User>, roles: seq<Role>, encode: string -> string): (s: Seeding)
    ensures |users| != 0 ==> s == Seeding(Done, users)
  {
    if |users| != 0 then Seeding(Done, users)
    else match FindRoleByName(roles, UserRoleName)
      case None => Seeding(RoleMissing(UserRoleName), users)
      case Some(userRole) =>
        var normal := NormalUser(|users| + 1, userRole, encode);
        match FindRoleByName(roles, AdminRoleName)
        case None => Seeding(RoleMissing(AdminRoleName), users + [normal])
        case Some(adminRole) =>
          Seeding(Done, users + [normal, AdminUser(|users| + 2, adminRole, encode)])
  }

  /** The result of `run` and both tables after it. */
  datatype Boot = Boot(result: InitResult, users: seq<User>, roles: seq<Role>)

  /** `run`: roles first, then users. */
  function Booted(users: seq<User>, roles: seq<Role>, encode: string -> string): Boot
  {
    var seededRoles := SeededRoles(roles);
    var s := SeededUsers(users, seededRoles, encode);
    Boot(s.result, s.users, seededRoles)
  }

  class Initializer {
    const roleStore: RoleStore
    const userStore: UserStore
    const encode: string -> string

    constructor (roleStore: RoleStore, userStore: UserStore, encode: string -> string)
      ensures this.roleStore == roleStore && this.userStore == userStore && this.encode == encode
    {
      this.roleStore := roleStore;
      this.userStore := userStore;
      this.encode := encode;
    }

    method InitializeRoles()
      requires roleStore.Valid()
      modifies roleStore
      ensures roleStore.Valid()
      ensures roleStore.roles == SeededRoles(old(roleStore.roles))
    {
      if |roleStore.roles| == 0 {
        var userRole := Role(|roleStore.roles| + 1, UserRoleName);
        roleStore.roles := roleStore.roles + [userRole];
        var adminRole := Role(|roleStore.roles| + 1, AdminRoleName);
        roleStore.roles := roleStore.roles + [adminRole];
      }
    }

    method InitializeUsers() returns (r: InitResult)
      requires userStore.Valid()
      modifies userStore
      ensures userStore.Valid()
      ensures Seeding(r, userStore.users) == SeededUsers(old(userStore.users), roleStore.roles, encode)
    {
      if |userStore.users| == 0 {
        var userRole := FindRoleByName(roleStore.roles, UserRoleName);
        if userRole.None? {
          return RoleMissing(UserRoleName);
        }
        var normal := NormalUser(|userStore.users| + 1, userRole.value, encode);
        userStore.users := userStore.users + [normal];
        var adminRole := FindRoleByName(roleStore.roles, AdminRoleName);
        if adminRole.None? {
          return RoleMissing(AdminRoleName);
        }
        var admin := AdminUser(|userStore.users| + 1, adminRole.value, encode);
        assert "user"[0] != "admin"[0];
        assert "user@taskmanager.com"[0] != "admin@taskmanager.com"[0];
        userStore.users := userStore.users + [admin];
      }
      r := Done;
    }

    method Run() returns (r: InitResult)
      requires roleStore.Valid() && userStore.Valid()
      modifies roleStore, userStore
      ensures roleStore.Valid() && userStore.Valid()
      ensures Boot(r, userStore.users, roleStore.roles)
              == Booted(old(userStore.users), old(roleStore.roles), encode)
    {
      InitializeRoles();
      r := InitializeUsers();
    }
  }

  /** Roles are added only to an empty role table; otherwise it is left alone. */
  lemma RolesSeededOnlyWhenEmpty(roles: seq<Role>)
    ensures roles == [] ==> SeededRoles(roles) == [Role(1, "USER"), Role(2, "ADMIN")]
    ensures roles != [] ==> SeededRoles(roles) == roles
  {
  }

  /** With both roles present, an empty user table receives "user" holding
      exactly the USER role and "admin" holding exactly the ADMIN role, both
      enabled, with their passwords encoded. */
  lemma SeedAccounts(roles: seq<Role>, encode: string -> string)
    requires FindRoleByName(roles, UserRoleName).Some? && FindRoleByName(roles, AdminRoleName).Some?
    ensures var s := SeededUsers([], roles, encode);
      && s.result == Done
      && |s.users| == 2
      && s.users[0].username == "user" && s.users[1].username == "admin"
      && s.users[0].enabled && s.users[1].enabled
      && s.users[0].password == encode("password123") && s.users[1].password == encode("admin123")
      && |s.users[0].roles| == 1 && |s.users[1].roles| == 1
      && (forall r :: r in s.users[0].roles ==> r in roles && r.name == "USER")
      && (forall r :: r in s.users[1].roles ==> r in roles && r.name == "ADMIN")
  {
  }

  /** Without the ADMIN role, seeding fails after "user" has been stored, and
      that partial state is what remains. */
  lemma PartialSeedWhenAdminMissing(roles: seq<Role>, encode: string -> string)
    requires FindRoleByName(roles, UserRoleName).Some? && FindRoleByName(roles, AdminRoleName).None?
    ensures var s := SeededUsers([], roles, encode);
      && s.result == RoleMissing("ADMIN")
      && s.users == [NormalUser(1, FindRoleByName(roles, UserRoleName).value, encode)]
  {
  }

  /** On empty tables, `run` stores both roles and both accounts. */
  lemma FirstRunOnEmptyTables(encode: string -> string)
    ensures Booted([], [], encode)
            == Boot(Done,
                    [NormalUser(1, Role(1, "USER"), encode), AdminUser(2, Role(2, "ADMIN"), encode)],
                    [Role(1, "USER"), Role(2, "ADMIN")])
  {
    var roles := [Role(1, UserRoleName), Role(2, AdminRoleName)];
    assert FindRoleByName(roles, UserRoleName) == Some(roles[0]);
    assert UserRoleName[0] != AdminRoleName[0];
    assert roles[1..] == [roles[1]];
    assert FindRoleByName(roles, AdminRoleName) == Some(roles[1]);
  }

  /** A second `run` changes neither table; after a run that ended normally it
      ends normally too. */
  lemma SecondRunChangesNothing(users: seq<User>, roles: seq<Role>, encode: string -> string)
    ensures var first := Booted(users, roles, encode);
      var second := Booted(first.users, first.roles, encode);
      && second.users == first.users
      && second.roles == first.roles
      && (first.result == Done ==> second.result == Done)
  {
  }
}
